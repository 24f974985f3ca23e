/** What is sent arrives, and what is asked is answered: recordings are started exactly once of each kind,
    their answers come back, every health check comes back as an acknowledgement, and an agent is
    registered under its own token. Stated by counting what is on its way, so a message that is not sent,
    or sent twice, breaks a law. */
module Deliveries {
  import opened Basics
  import opened Session

  /** The recordings that StartRecords on their way will start, by kind. */
  function Starts(down: seq<Down>): seq<bool>
  {
    if down == [] then []
    else (if down[0].StartRecord? then [down[0].isMachine] else []) + Starts(down[1..])
  }

  /** The recordings that RecordResponses on their way report. */
  function Reports(up: seq<Up>): seq<bool>
  {
    if up == [] then []
    else (if up[0].RecordResponse? then [up[0].isMachine] else []) + Reports(up[1..])
  }

  lemma {:induction false} StartsSnoc(down: seq<Down>, m: Down)
    ensures Starts(down + [m]) == Starts(down) + if m.StartRecord? then [m.isMachine] else []
    decreases |down|
  {
    if down == [] {
      assert down + [m] == [m] && [m][1..] == [] && Starts([]) == [];
    } else {
      assert (down + [m])[0] == down[0] && (down + [m])[1..] == down[1..] + [m];
      StartsSnoc(down[1..], m);
    }
  }

  lemma {:induction false} ReportsSnoc(up: seq<Up>, m: Up)
    ensures Reports(up + [m]) == Reports(up) + if m.RecordResponse? then [m.isMachine] else []
    decreases |up|
  {
    if up == [] {
      assert up + [m] == [m] && [m][1..] == [] && Reports([]) == [];
    } else {
      assert (up + [m])[0] == up[0] && (up + [m])[1..] == up[1..] + [m];
      ReportsSnoc(up[1..], m);
    }
  }

  /** The recordings started and on their way to be: one of the machine, then one of the processes, from
      the end of the handshake on. */
  predicate RecordingsOk(l: Link)
  {
    && l.recording + Starts(l.down) == (if l.stage == 9 then [true, false] else [])
    && l.responses + Reports(l.up) == l.recording
  }

  /** Who has not been heard of since the last check has it, or its acknowledgement, on the way. */
  predicate HealthOk(l: Link)
  {
    l.healthCheck || HealthCheck in l.down || HealthAck in l.up
  }

  /** An agent asks for its own token and is registered under no other. */
  predicate TokenOk(l: Link)
  {
    && (l.token == NO_TOKEN || l.token == l.agent)
    && forall i :: 0 <= i < |l.up| && l.up[i].AgentIDRequest? ==> l.up[i].token == l.agent
  }

  predicate Delivered(l: Link) { RecordingsOk(l) && HealthOk(l) && TokenOk(l) }

  ghost predicate AllDelivered(sys: System)
  {
    forall s :: s in sys.listed && s in sys.links ==> Delivered(sys.links[s])
  }

  // ---------------------------------------------------------------------------------------
  // Step by step

  /** Sending anything but a StartRecord. */
  lemma SendDelivers(l: Link, m: Down)
    requires Delivered(l) && !m.StartRecord?
    ensures Delivered(Send(l, m))
  {
    StartsSnoc(l.down, m);
    assert Starts(l.down) + [] == Starts(l.down);
    assert HealthCheck in l.down ==> HealthCheck in l.down + [m];
  }

  /** Taking a packet that reports nothing. */
  lemma TakeDelivers(l: Link)
    requires Delivered(l) && l.up != [] && !l.up[0].RecordResponse? && l.up[0] != HealthAck
    ensures Delivered(l.(up := l.up[1..]))
  {
    hide Starts, Reports;
    ReportsHead(l.up);
    assert [] + Reports(l.up[1..]) == Reports(l.up[1..]);
  }

  lemma ReadyDelivers(l: Link)
    requires Delivered(l) && l.up != [] && l.up[0] == AgentReady && l.stage == 8
    ensures Delivered(Send(Send(l.(up := l.up[1..]), StartRecord(true)), StartRecord(false)).(stage := 9))
  {
    hide Starts, Reports;
    TakeDelivers(l);
    var down := l.down + [StartRecord(true)];
    StartsSnoc(l.down, StartRecord(true));
    StartsSnoc(down, StartRecord(false));
    assert l.recording == [] && Starts(l.down) == [];
    assert HealthCheck in l.down ==> HealthCheck in down && HealthCheck in down + [StartRecord(false)];
  }

  lemma ReportDelivers(l: Link)
    requires Delivered(l) && l.up != [] && l.up[0].RecordResponse?
    ensures Delivered(l.(up := l.up[1..], responses := l.responses + [l.up[0].isMachine]))
  {
    hide Starts, Reports;
    ReportsHead(l.up);
    Associative(l.responses, [l.up[0].isMachine], Reports(l.up[1..]));
  }

  lemma ReportsHead(up: seq<Up>)
    requires up != []
    ensures Reports(up) == (if up[0].RecordResponse? then [up[0].isMachine] else []) + Reports(up[1..])
    ensures HealthAck in up <==> up[0] == HealthAck || HealthAck in up[1..]
  {
    assert up == [up[0]] + up[1..];
  }

  lemma AckDelivers(l: Link)
    requires Delivered(l) && l.up != [] && l.up[0] == HealthAck
    ensures Delivered(l.(up := l.up[1..], healthCheck := true))
  {
    assert [] + Reports(l.up[1..]) == Reports(l.up[1..]);
  }

  /** The server handles the oldest packet of `s`. */
  lemma ServerDelivers(sys: System, s: SockId)
    requires Inv(sys) && s in sys.listed && s in sys.links && sys.links[s].up != [] && Delivered(sys.links[s])
    ensures s in ServerStep(sys, s).links && Delivered(ServerStep(sys, s).links[s])
  {
    hide Delivered, Lockstep, Converges, Numbered, Find, InitAgent, GetAgentID, Filled, Members;
    var l := sys.links[s];
    assert LinkOk(l, sys.agents, sys.lists);
    DueAtServer(l);
    match l.up[0]
    case AgentIDRequest(token) =>
      AnswerDelivers(l, AgentIDResponse(-1, true), l.token, l.agentID);
      LoginDelivers(l, AgentIDResponse(GetAgentID(InitAgent(sys.agents, token), token), false));
      AnswerDelivers(l, AgentIDResponse(GetAgentID(InitAgent(sys.agents, token), token), false), token,
                     GetAgentID(InitAgent(sys.agents, token), token));
    case ProcessListRequest =>
      var names := Members(Filled(sys.lists, l.agentID), l.agentID);
      AnswerDelivers(l, ProcessListResponse(names), l.token, l.agentID);
      StraysDoNotMatter(Send(l.(up := l.up[1..]), ProcessListResponse(names)).(stage := 3), l.strays - names);
    case CounterListRequest(isMachine) =>
      AnswerDelivers(l, CounterListResponse(isMachine), l.token, l.agentID);
    case AgentReady => ReadyDelivers(l);
    case RecordResponse(isMachine) => ReportDelivers(l);
    case HealthAck => AckDelivers(l);
  }

  /** The token that is asked for is the agent's. */
  lemma LoginDelivers(l: Link, a: Down)
    requires Delivered(l) && l.up != [] && l.up[0].AgentIDRequest?
    ensures l.up[0].token == l.agent
  {
  }

  lemma AnswerDelivers(l: Link, a: Down, token: int, id: int)
    requires Delivered(l) && l.up != [] && UpHandshake(l.up[0]) && !a.StartRecord? && l.stage < 8
    requires token == l.token || token == l.agent
    ensures Delivered(Send(l.(up := l.up[1..]), a).(token := token, agentID := id, stage := l.stage + 1))
  {
    TakeDelivers(l);
    SendDelivers(l.(up := l.up[1..]), a);
  }

  lemma StraysDoNotMatter(l: Link, strays: set<Name>)
    requires Delivered(l)
    ensures Delivered(l.(strays := strays))
  {
  }

  /** The agent takes a message that asks for nothing here. */
  lemma PopDelivers(l: Link)
    requires Delivered(l) && l.down != [] && !l.down[0].StartRecord? && !l.down[0].HealthCheck?
    ensures Delivered(l.(down := l.down[1..]))
  {
    hide Starts, Reports;
    StartsHead(l.down);
    assert [] + Starts(l.down[1..]) == Starts(l.down[1..]);
  }

  lemma ReplyDelivers(l: Link, m: Up)
    requires Delivered(l) && !m.RecordResponse? && !m.AgentIDRequest?
    ensures Delivered(Reply(l, m))
  {
    hide Starts, Reports;
    ReportsSnoc(l.up, m);
    assert Reports(l.up) + [] == Reports(l.up);
    RequestsSnoc(l.up, m);
  }

  /** One packet more: the acknowledgements and the requests for a token. */
  lemma RequestsSnoc(up: seq<Up>, m: Up)
    requires !m.AgentIDRequest?
    ensures HealthAck in up || m == HealthAck <==> HealthAck in up + [m]
    ensures forall i :: 0 <= i < |up + [m]| && (up + [m])[i].AgentIDRequest? ==> i < |up| && (up + [m])[i] == up[i]
  {
    if HealthAck in up + [m] {
      var i :| 0 <= i < |up + [m]| && (up + [m])[i] == HealthAck;
      assert i < |up| ==> up[i] == HealthAck;
    }
    assert (up + [m])[|up|] == m;
    assert forall i :: 0 <= i < |up| ==> (up + [m])[i] == up[i];
  }

  lemma StartsHead(down: seq<Down>)
    requires down != []
    ensures Starts(down) == (if down[0].StartRecord? then [down[0].isMachine] else []) + Starts(down[1..])
    ensures HealthCheck in down <==> down[0] == HealthCheck || HealthCheck in down[1..]
  {
    assert down == [down[0]] + down[1..];
  }

  lemma StartDelivers(l: Link)
    requires Delivered(l) && l.down != [] && l.down[0].StartRecord?
    ensures var k := l.down[0].isMachine;
            Delivered(Reply(l.(down := l.down[1..]), RecordResponse(k)).(recording := l.recording + [k]))
  {
    hide RecordingsOk;
    StartsHead(l.down);
    RequestsSnoc(l.up, RecordResponse(l.down[0].isMachine));
    StartCounts(l);
  }

  lemma StartCounts(l: Link)
    requires RecordingsOk(l) && l.down != [] && l.down[0].StartRecord?
    ensures var k := l.down[0].isMachine;
            RecordingsOk(Reply(l.(down := l.down[1..]), RecordResponse(k)).(recording := l.recording + [k]))
  {
    hide Starts, Reports;
    var k, rest := l.down[0].isMachine, l.down[1..];
    StartsHead(l.down);
    ReportsSnoc(l.up, RecordResponse(k));
    Associative(l.recording, [k], Starts(rest));
    Associative(l.responses, Reports(l.up), [k]);
  }

  lemma CheckDelivers(l: Link)
    requires Delivered(l) && l.down != [] && l.down[0] == HealthCheck
    ensures Delivered(Reply(l.(down := l.down[1..]), HealthAck))
  {
    hide Starts, Reports;
    StartsHead(l.down);
    assert [] + Starts(l.down[1..]) == Starts(l.down[1..]);
    ReportsSnoc(l.up, HealthAck);
    assert Reports(l.up) + [] == Reports(l.up);
    RequestsSnoc(l.up, HealthAck);
  }

  /** What the agent watches, and how far it has come, do not matter until the handshake ends. */
  lemma SameDelivered(l: Link, l': Link)
    requires Delivered(l) && (l.stage == 9 <==> l'.stage == 9)
    requires l' == l.(watch := l'.watch, applied := l'.applied, stage := l'.stage)
    ensures Delivered(l')
  {
  }

  /** The agent handles the oldest message. */
  lemma AgentDelivers(l: Link)
    requires Lockstep(l) && Delivered(l) && l.down != []
    ensures Delivered(AgentStep(l))
  {
    hide Delivered, Lockstep;
    AgentKeepsStage(l);
    if l.stage == 9 { AgentStageStays(l); }
    var rest := l.(down := l.down[1..]);
    match l.down[0]
    case AgentIDResponse(id, alreadyRunning) =>
      PopDelivers(l);
      ReplyDelivers(rest, ProcessListRequest);
      SameDelivered(if alreadyRunning then rest else Reply(rest, ProcessListRequest), AgentStep(l));
    case ProcessListResponse(names) =>
      PopDelivers(l);
      ReplyDelivers(rest, CounterListRequest(false));
      SameDelivered(Reply(rest, CounterListRequest(false)), AgentStep(l));
    case CounterListResponse(isMachine) =>
      PopDelivers(l);
      ReplyDelivers(rest, if isMachine then AgentReady else CounterListRequest(true));
      SameDelivered(Reply(rest, if isMachine then AgentReady else CounterListRequest(true)), AgentStep(l));
    case StartRecord(isMachine) => StartDelivers(l);
    case AddName(name) =>
      PopDelivers(l);
      SameDelivered(rest, AgentStep(l));
    case DeleteName(name) =>
      PopDelivers(l);
      SameDelivered(rest, AgentStep(l));
    case HealthCheck => CheckDelivers(l);
  }

  /** With the handshake over, only other messages come. */
  lemma AgentStageStays(l: Link)
    requires Lockstep(l) && l.down != [] && l.stage == 9
    ensures AgentStep(l).stage == 9
  {
    hide UpHandshakes, DownHandshakes;
    DownHead(l.down);
  }

  /** Every listed link, after any step. */
  lemma StepDelivers(sys: System, e: Event)
    requires Inv(sys) && AllDelivered(sys)
    ensures AllDelivered(Step(sys, e))
  {
    hide LinkOk, Numbered, Find, ServerStep, AgentStep, Delivered;
    ListedHasLink(sys);
    match e
    case Accept(s, token) => FreshDelivers(token);
    case ServerHandles(s) =>
      if s in sys.listed && sys.links[s].up != [] {
        OneLinkChanges(sys, s);
        ServerDelivers(sys, s);
      }
    case AgentHandles(s) =>
      if s in sys.listed && sys.links[s].down != [] {
        assert Lockstep(sys.links[s]) by { LinkIsInStep(sys, s); }
        AgentDelivers(sys.links[s]);
      }
    case WebCommand(token, add, name) =>
      forall s | s in sys.listed ensures Delivered(Told(sys.links[s], add, name)) {
        ToldDelivers(sys.links[s], add, name);
      }
    case HeartbeatStart =>
      forall s | s in sys.listed ensures Delivered(Asked(sys.links[s])) { AskedDelivers(sys.links[s]); }
    case HeartbeatEnd =>
      forall s | s in sys.listed ensures Delivered(Judged(sys.links[s])) { JudgedDelivers(sys.links[s]); }
    case _ =>
  }

  lemma LinkIsInStep(sys: System, s: SockId)
    requires Inv(sys) && s in sys.listed && s in sys.links
    ensures Lockstep(sys.links[s])
  {
    hide Numbered, Lockstep;
    assert LinkOk(sys.links[s], sys.agents, sys.lists);
  }

  lemma FreshDelivers(token: int)
    ensures Delivered(Fresh(token))
  {
    assert [AgentIDRequest(token)][1..] == [];
  }

  lemma ToldDelivers(l: Link, add: bool, name: Name)
    requires Delivered(l)
    ensures Delivered(Told(l, add, name))
  {
    SendDelivers(l, if add then AddName(name) else DeleteName(name));
  }

  lemma AskedDelivers(l: Link)
    requires Delivered(l)
    ensures Delivered(Asked(l))
  {
    SendDelivers(l, HealthCheck);
    assert (l.down + [HealthCheck])[|l.down|] == HealthCheck;
  }

  lemma JudgedDelivers(l: Link)
    requires Delivered(l)
    ensures Delivered(Judged(l))
  {
  }

  // ---------------------------------------------------------------------------------------
  // Over whole runs

  lemma {:induction false} RunDelivers(sys: System, events: seq<Event>)
    requires Inv(sys) && AllDelivered(sys)
    ensures AllDelivered(Run(sys, events))
    decreases |events|
  {
    hide Inv, AllDelivered, Step;
    if events != [] {
      StepKeepsInv(sys, events[0]);
      StepDelivers(sys, events[0]);
      RunDelivers(Step(sys, events[0]), events[1..]);
    }
  }

  /** Over every run, for every connection: once the handshake is over, the recordings the agent has
      started and the StartRecords on their way to it are exactly one of the machine and one of the
      processes, and before there are none; what the agent has started is what it has reported and what
      its reports on their way say. The agent is registered under its own token or not at all. */
  lemma RecordingsExactly(start: System, events: seq<Event>, s: SockId)
    requires Initial(start)
    requires var end := Run(start, events); s in end.listed && s in end.links
    ensures var l := Run(start, events).links[s];
            && l.recording + Starts(l.down) == (if l.stage == 9 then [true, false] else [])
            && l.responses + Reports(l.up) == l.recording
            && (l.token == NO_TOKEN || l.token == l.agent)
  {
    hide Inv;
    assert Inv(start) by { StartHolds(start); }
    RunDelivers(start, events);
    assert Delivered(Run(start, events).links[s]);
  }

  lemma StartHolds(start: System)
    requires Initial(start)
    ensures Inv(start)
  {
    hide LinkOk, Numbered;
  }

  /** Over every run, a registered agent with nothing on its way in either direction has all it was to
      get: the three lists in order, both recordings, known to the server, and the process list of Redis
      (and stray names on top). So nothing that the handshake needs is ever not sent. */
  lemma AtRest(start: System, events: seq<Event>, s: SockId)
    requires Initial(start)
    requires var end := Run(start, events);
             s in end.listed && s in end.links && end.links[s].token != NO_TOKEN
             && end.links[s].down == [] && end.links[s].up == []
    ensures var end := Run(start, events);
            var l := end.links[s];
            && l.applied == [Processes, ProcessCounters, MachineCounters]
            && l.recording == l.responses == [true, false] && l.healthCheck
            && l.watch == Members(end.lists, l.agentID) + l.strays
  {
    hide Inv, Lockstep, Delivered;
    RunKeepsInv(start, events) by { StartHolds(start); }
    RecordingsExactly(start, events, s);
    RunDelivers(start, events) by { StartHolds(start); }
    var l := Run(start, events).links[s];
    assert Delivered(l) by { IsDelivered(Run(start, events), s); }
    assert LinkOk(l, Run(start, events).agents, Run(start, events).lists) by { ListedIsOk(Run(start, events), s); }
    HandshakeIsOver(l);
  }

  /** With nothing on its way, every part of the handshake has taken place. */
  lemma HandshakeIsOver(l: Link)
    requires Lockstep(l) && Delivered(l) && l.token != NO_TOKEN && l.down == [] && l.up == []
    ensures l.stage == 9 && l.applied == [Processes, ProcessCounters, MachineCounters]
    ensures l.recording == l.responses == [true, false] && l.healthCheck
  {
    hide UpHandshakes, DownHandshakes;
    NothingShakes();
    assert l.recording + [] == l.recording && l.responses + [] == l.responses;
  }

  lemma IsDelivered(sys: System, s: SockId)
    requires AllDelivered(sys) && s in sys.listed && s in sys.links
    ensures Delivered(sys.links[s])
  {
  }

  lemma ListedIsOk(sys: System, s: SockId)
    requires Inv(sys) && s in sys.listed && s in sys.links
    ensures LinkOk(sys.links[s], sys.agents, sys.lists)
  {
  }

  lemma NothingShakes()
    ensures UpHandshakes([]) == [] && DownHandshakes([]) == []
  {
  }

  /** A round of the heartbeat never disconnects an agent that answers: over every run, whom the second
      phase disconnects still has a health check or its acknowledgement on the way. An agent that has
      handled its channel, and whose answers have been handled, stays. */
  lemma AnsweringAgentsStay(start: System, events: seq<Event>, s: SockId)
    requires Initial(start)
    requires var end := Run(start, events);
             s in end.listed && s in end.links && !end.links[s].disconnectCall
    ensures var end := Run(start, events);
            var l, after := end.links[s], Step(end, HeartbeatEnd);
            && s in after.links
            && (after.links[s].disconnectCall ==> HealthCheck in l.down || HealthAck in l.up)
            && (l.down == [] && l.up == [] ==> !after.links[s].disconnectCall)
  {
    hide Inv;
    RunDelivers(start, events) by { StartHolds(start); }
    assert Delivered(Run(start, events).links[s]);
  }

  /** Nothing else disconnects anybody. */
  lemma OnlyTheHeartbeatDisconnects(sys: System, e: Event, s: SockId)
    requires Inv(sys) && s in Step(sys, e).listed && e != HeartbeatEnd
    ensures var now := Step(sys, e);
            && s in now.links
            && (now.links[s].disconnectCall ==> s in sys.listed && sys.links[s].disconnectCall)
  {
    hide LinkOk, Numbered, Find, ServerStep;
    ListedHasLink(sys);
    match e
    case ServerHandles(r) =>
      if r in sys.listed && sys.links[r].up != [] {
        OneLinkChanges(sys, r);
        ServerDisconnectsNobody(sys, r);
      }
    case _ =>
  }

  lemma ServerDisconnectsNobody(sys: System, s: SockId)
    requires s in sys.links && sys.links[s].up != []
    ensures s in ServerStep(sys, s).links
    ensures ServerStep(sys, s).links[s].disconnectCall == sys.links[s].disconnectCall
  {
    hide Find, InitAgent, GetAgentID, Filled, Members;
  }
}
