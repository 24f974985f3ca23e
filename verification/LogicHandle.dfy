/** The single-consumer packet queue of the logic thread. Producers push a packet and then set an
    auto-reset event; the consumer takes one packet each time the event releases it. Setting an
    event that is set already changes nothing, so signals can coalesce. */
module LogicHandles {
  datatype Step<T> = Push(packet: T) | Signal | Serve

  /** `pushed` and `served` are all packets so far, in order; `signals` counts the calls of
      SetEvent, `coalesced` those that found the event set. */
  datatype State<T> = State(queue: seq<T>, isSet: bool, pushed: seq<T>, served: seq<T>, signals: nat, coalesced: nat)

  /** A producer signals only after its push, and the consumer runs only when it is released. */
  predicate Enabled<T>(s: State<T>, e: Step<T>)
  {
    match e
    case Push(p) => true
    case Signal => s.signals < |s.pushed|
    case Serve => s.isSet
  }

  function Next<T>(s: State<T>, e: Step<T>): State<T>
  {
    match e
    case Push(p) => s.(queue := s.queue + [p], pushed := s.pushed + [p])
    case Signal => s.(isSet := true, signals := s.signals + 1,
                      coalesced := if s.isSet then s.coalesced + 1 else s.coalesced)
    case Serve => if s.queue == [] then s.(isSet := false)
                  else s.(queue := s.queue[1..], served := s.served + [s.queue[0]], isSet := false)
  }

  function Idle<T>(): State<T>
  {
    State([], false, [], [], 0, 0)
  }

  /** The state after a run; steps that are not enabled do not happen. */
  function Run<T>(s: State<T>, steps: seq<Step<T>>): State<T>
    decreases |steps|
  {
    if steps == [] then s else Run(if Enabled(s, steps[0]) then Next(s, steps[0]) else s, steps[1..])
  }

  /** First in, first out, nothing twice and nothing lost; and every signal is accounted for: it
      has released the consumer, is about to, or has coalesced with one that will. */
  predicate Inv<T(==)>(s: State<T>)
  {
    && s.served + s.queue == s.pushed
    && s.signals <= |s.pushed|
    && s.signals == |s.served| + s.coalesced + if s.isSet then 1 else 0
  }

  lemma {:induction false} RunKeepsInv<T>(s: State<T>, steps: seq<Step<T>>)
    requires Inv(s)
    ensures Inv(Run(s, steps))
    decreases |steps|
  {
    if steps != [] {
      var e := steps[0];
      if Enabled(s, e) {
        match e
        case Push(p) => assert s.served + (s.queue + [p]) == s.served + s.queue + [p];
        case Signal =>
        case Serve =>
          assert s.queue != [];
          assert s.served + [s.queue[0]] + s.queue[1..] == s.served + s.queue;
      }
      RunKeepsInv(if Enabled(s, e) then Next(s, e) else s, steps[1..]);
    }
  }

  /** In every run packets are handled in the order of the pushes, each at most once. When the dust
      has settled, with every push signalled and the event not set, as many packets are left
      waiting as signals have coalesced: all are handled if and only if none has. */
  lemma Dispatch<T>(steps: seq<Step<T>>)
    ensures var s := Run(Idle(), steps);
            && s.served <= s.pushed
            && (s.signals == |s.pushed| && !s.isSet ==>
                  |s.queue| == s.coalesced && (s.served == s.pushed <==> s.coalesced == 0))
  {
    RunKeepsInv(Idle<T>(), steps);
  }

  /** Signals do coalesce: two packets are pushed before the first signal, the consumer wakes once,
      and at rest the second packet is left waiting. */
  lemma SignalsCoalesce()
    ensures var s := Run(Idle(), [Push(1), Push(2), Signal, Signal, Serve]);
            s.queue == [2] && s.served == [1] && s.coalesced == 1 && s.signals == |s.pushed| && !s.isSet
  {
    var s0 := Idle<int>();
    RunHead(s0, Push(1), [Push(2), Signal, Signal, Serve]);
    var s1 := Next(s0, Push(1));
    RunHead(s1, Push(2), [Signal, Signal, Serve]);
    var s2 := Next(s1, Push(2));
    RunHead(s2, Signal, [Signal, Serve]);
    var s3 := Next(s2, Signal);
    RunHead(s3, Signal, [Serve]);
    RunHead(Next(s3, Signal), Serve, []);
  }

  lemma RunHead<T>(s: State<T>, e: Step<T>, rest: seq<Step<T>>)
    ensures Run(s, [e] + rest) == Run(if Enabled(s, e) then Next(s, e) else s, rest)
  {
    assert ([e] + rest)[1..] == rest;
  }

  class LogicHandle<T(0, ==)> {
    var operationQueue: seq<T>
    var event: bool
    ghost var pushed: seq<T>
    ghost var served: seq<T>
    ghost var signals: nat
    ghost var coalesced: nat

    constructor ()
      ensures Valid() && Now() == Idle()
    {
      operationQueue, event := [], false;
      pushed, served, signals, coalesced := [], [], 0, 0;
    }

    ghost function Now(): State<T>
      reads this
    {
      State(operationQueue, event, pushed, served, signals, coalesced)
    }

    ghost predicate Valid()
      reads this
    {
      Inv(Now())
    }

    /** EnqueueOper, inside the critical section: the packet will be handled after all before it. */
    method PushPacket(msg: T)
      requires Valid()
      modifies this
      ensures Valid() && Now() == Next(old(Now()), Push(msg))
      ensures operationQueue == pushed[|served|..] && pushed[|pushed| - 1] == msg && served == old(served)
    {
      assert served + operationQueue + [msg] == served + (operationQueue + [msg]);
      operationQueue := operationQueue + [msg];
      pushed := pushed + [msg];
    }

    /** EnqueueOper, after it. The consumer is released at once or was going to be anyway: as many
        packets wait without a release of their own as signals have coalesced or are still to come. */
    method SetEvent()
      requires Valid() && signals < |pushed|
      modifies this
      ensures Valid() && Now() == Next(old(Now()), Signal)
      ensures event && |operationQueue| == 1 + coalesced + (|pushed| - signals)
    {
      coalesced := if event then coalesced + 1 else coalesced;
      signals := signals + 1;
      event := true;
      assert |served + operationQueue| == |pushed|;
    }

    /** One turn of Process: the wait that the event ends, which resets it, and at most one packet. A
        wake always finds a packet, and it is the first in the order of the pushes that was not
        handled yet. */
    method ProcessOne() returns (packet: T)
      requires Valid() && event
      modifies this
      ensures Valid() && Now() == Next(old(Now()), Serve)
      ensures |old(served)| < |pushed| && packet == pushed[|old(served)|] && served == pushed[..|old(served)| + 1]
      ensures !event && |operationQueue| == coalesced + (|pushed| - signals)
    {
      event := false;
      if |operationQueue| <= 0 {
        // the source goes back to the wait here
        assert false;
      }
      assert pushed == served + operationQueue;
      packet := operationQueue[0];
      assert served + [packet] + operationQueue[1..] == served + operationQueue;
      operationQueue := operationQueue[1..];
      served := served + [packet];
    }
  }
}
