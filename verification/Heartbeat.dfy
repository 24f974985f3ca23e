/** The two-phase heartbeat: which connections a round disconnects. */
module Heartbeat {
  import opened Session

  /** `e` makes the server hear of socket `s`: its HealthAck is handled, or it goes away (and, if the
      socket is accepted again, starts afresh). */
  predicate Hears(sys: System, e: Event, s: SockId)
  {
    match e
    case Drop(r) => r == s
    case ServerHandles(r) =>
      r == s && s in sys.listed && s in sys.links && sys.links[s].up != [] && sys.links[s].up[0] == HealthAck
    case _ => false
  }

  predicate Unheard(sys: System, events: seq<Event>, s: SockId)
    decreases |events|
  {
    events == [] || (!Hears(sys, events[0], s) && Unheard(Step(sys, events[0]), events[1..], s))
  }

  predicate NoBeat(events: seq<Event>)
  {
    forall i :: 0 <= i < |events| ==> !events[i].HeartbeatStart? && !events[i].HeartbeatEnd?
  }

  /** One step between the phases, seen from socket `s`. */
  lemma StepBetween(sys: System, e: Event, s: SockId)
    requires Inv(sys) && !e.HeartbeatStart? && !e.HeartbeatEnd?
    ensures var now := Step(sys, e);
            && (s in sys.listed && !Hears(sys, e, s) ==>
                  s in now.listed && s in now.links && now.links[s].healthCheck == sys.links[s].healthCheck)
            && (s in sys.listed && Hears(sys, e, s) && s in now.listed ==>
                  s in now.links && now.links[s].healthCheck)
            && (s !in sys.listed && s in now.listed ==> s in now.links && now.links[s].healthCheck)
  {
    hide Find, LinkOk, Numbered, Lockstep, InitAgent, Filled;
    match e
    case ServerHandles(r) => if r in sys.listed && sys.links[r].up != [] { ServerStepHealth(sys, r); }
    case _ =>
  }

  lemma ServerStepHealth(sys: System, s: SockId)
    requires s in sys.listed && s in sys.links && sys.links[s].up != []
    ensures var now := ServerStep(sys, s);
            && now.listed == sys.listed && s in now.links
            && now.links[s].healthCheck == (sys.links[s].healthCheck || sys.links[s].up[0] == HealthAck)
            && forall r :: r in sys.links && r != s ==> r in now.links && now.links[r] == sys.links[r]
  {
    hide Find, InitAgent, GetAgentID, Filled, Members;
    OneLinkChanges(sys, s);
  }

  lemma {:induction false} RunBetween(sys: System, events: seq<Event>, s: SockId)
    requires Inv(sys) && NoBeat(events) && s in Run(sys, events).listed
    ensures s in Run(sys, events).links
    ensures Run(sys, events).links[s].healthCheck
            <==> !(s in sys.listed && !sys.links[s].healthCheck && Unheard(sys, events, s))
    decreases |events|
  {
    hide Step, Inv;
    RunKeepsInv(sys, events);
    ListedHasLink(sys);
    ListedHasLink(Run(sys, events));
    if events != [] {
      StepKeepsInv(sys, events[0]);
      ListedHasLink(Step(sys, events[0]));
      StepBetween(sys, events[0], s);
      RunBetween(Step(sys, events[0]), events[1..], s);
    }
  }

  /** Heartbeat exactness: whatever happens between the two phases of a round, the second phase
      disconnects exactly those listed sockets that were listed at the first phase and were not
      heard of since. A socket accepted in mid-round is never among them. */
  lemma HeartbeatExact(sys: System, events: seq<Event>, s: SockId)
    requires Inv(sys) && NoBeat(events)
    requires s in Run(Step(sys, HeartbeatStart), events).listed
    ensures var asked := Step(sys, HeartbeatStart);
            var before := Run(asked, events);
            var after := Step(before, HeartbeatEnd);
            && s in before.links && s in after.links
            && (after.links[s].disconnectCall
                <==> before.links[s].disconnectCall || (s in sys.listed && Unheard(asked, events, s)))
  {
    var asked := Step(sys, HeartbeatStart);
    StepKeepsInv(sys, HeartbeatStart);
    RunBetween(asked, events, s);
  }
}
