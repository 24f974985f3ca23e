/** What the records say about agents that have gone: a log of all record accesses, the updates in it that
    are not lost, and the calls of a disconnection among them. */
module Departures {
  import opened Session
  import opened Records
  import opened Disconnects

  ghost predicate Loaded(log: seq<Access>, token: int, from: nat)
  {
    from < |log| && log[from] == Load(token)
  }

  /** Every record is what the updates on its chain make of the record at the start, and so is every
      record that was read and not written yet. */
  ghost predicate Logged(t: Tracked, start: map<int, Record>)
  {
    && (forall k: int :: Look(t.sys.agents, k) == At(Look(start, k), t.log, k, |t.log|))
    && (forall s :: s in t.pend && s in t.calls ==>
          var p := t.pend[s];
          && Loaded(t.log, p.token, p.from)
          && Found(p.record) == Updated(At(Look(start, p.token), t.log, p.token, p.from), Edit(CallChange(t.calls[s]))))
    && (t.logic.Fetched? ==>
          && Loaded(t.log, t.logic.token, t.logic.from)
          && t.logic.read == At(Look(start, t.logic.token), t.log, t.logic.token, t.logic.from))
  }

  lemma AtPrefix(o: Read, log: seq<Access>, more: seq<Access>, token: int, x: nat)
    requires x <= |log|
    ensures At(o, log + more, token, x) == At(o, log, token, x)
  {
    assert (log + more)[..x] == log[..x];
  }

  /** What was read before an access stays as it was. */
  lemma StillLogged(t: Tracked, u: Tracked, a: Access, start: map<int, Record>)
    requires Logged(t, start) && u.log == t.log + [a]
    ensures forall s :: s in t.pend && s in t.calls ==>
              var p := t.pend[s];
              && Loaded(u.log, p.token, p.from)
              && Found(p.record)
                 == Updated(At(Look(start, p.token), u.log, p.token, p.from), Edit(CallChange(t.calls[s])))
    ensures t.logic.Fetched? ==>
              && Loaded(u.log, t.logic.token, t.logic.from)
              && t.logic.read == At(Look(start, t.logic.token), u.log, t.logic.token, t.logic.from)
  {
    hide At, Look;
    forall s | s in t.pend && s in t.calls
      ensures var p := t.pend[s];
              At(Look(start, p.token), u.log, p.token, p.from) == At(Look(start, p.token), t.log, p.token, p.from)
    {
      var p := t.pend[s];
      AtPrefix(Look(start, p.token), t.log, [a], p.token, p.from);
    }
    if t.logic.Fetched? { AtPrefix(Look(start, t.logic.token), t.log, [a], t.logic.token, t.logic.from); }
  }

  /** A read changes no record. */
  lemma LoadLogged(agents: map<int, Record>, log: seq<Access>, token: int, start: map<int, Record>)
    requires forall k: int :: Look(agents, k) == At(Look(start, k), log, k, |log|)
    ensures forall k: int :: Look(agents, k) == At(Look(start, k), log + [Load(token)], k, |log| + 1)
    ensures Look(agents, token) == At(Look(start, token), log + [Load(token)], token, |log|)
  {
    hide At, Look;
    forall k: int ensures Look(agents, k) == At(Look(start, k), log + [Load(token)], k, |log| + 1) {
      AtPrefix(Look(start, k), log, [Load(token)], k, |log|);
      AtStays(Look(start, k), log + [Load(token)], k, |log|, |log| + 1);
    }
    AtPrefix(Look(start, token), log, [Load(token)], token, |log|);
  }

  /** A write changes one, by the last update of its chain. */
  lemma StoreLogged(agents: map<int, Record>, log: seq<Access>, token: int, from: nat, u: Update, r: Record,
                    start: map<int, Record>)
    requires forall k: int :: Look(agents, k) == At(Look(start, k), log, k, |log|)
    requires from <= |log| && Found(r) == Updated(At(Look(start, token), log, token, from), u)
    ensures forall k: int ::
              Look(agents[token := r], k) == At(Look(start, k), log + [Store(token, from, u)], k, |log| + 1)
  {
    hide At;
    var now := log + [Store(token, from, u)];
    forall k: int ensures Look(agents[token := r], k) == At(Look(start, k), now, k, |log| + 1) {
      if k == token {
        AtPrefix(Look(start, token), log, [Store(token, from, u)], token, from);
        AtStore(Look(start, token), now, token, |log|);
      } else {
        AtPrefix(Look(start, k), log, [Store(token, from, u)], k, |log|);
        AtStays(Look(start, k), now, k, |log|, |log| + 1);
        assert Look(agents[token := r], k) == Look(agents, k);
      }
    }
  }

  lemma CallKeepsLogged(t: Tracked, s: SockId, start: map<int, Record>)
    requires Orderly(t) && Logged(t, start) && s in t.sys.listed && s in t.sys.links
    ensures Logged(MoveStep(t, Call(s)), start)
  {
    hide Inv, Busy, LiveRight, FreshRead, At, Look, Loaded;
    var n := Done(t, s);
    if n == 0 || n == 2 {
      ReadKeepsLogged(t, s, start);
    } else if n == 1 || n == 3 {
      if s in t.pend {
        var p := t.pend[s];
        LoadedInside(t.log, p.token, p.from);
        StoreLogged(t.sys.agents, t.log, p.token, p.from, Edit(CallChange(n)), p.record, start);
        StillLogged(t, MoveStep(t, Call(s)), Store(p.token, p.from, Edit(CallChange(n))), start);
      }
    }
  }

  lemma LoadedInside(log: seq<Access>, token: int, from: nat)
    requires Loaded(log, token, from)
    ensures from < |log|
  {
  }

  lemma ReadKeepsLogged(t: Tracked, s: SockId, start: map<int, Record>)
    requires Calling(t) && Logged(t, start) && s in t.sys.listed && s in t.sys.links
    requires Done(t, s) == 0 || Done(t, s) == 2
    ensures Logged(MoveStep(t, Call(s)), start)
  {
    hide At;
    var u, token := MoveStep(t, Call(s)), Seen(t, s);
    assert s !in t.pend;
    if token in t.sys.agents {
      LoadLogged(t.sys.agents, t.log, token, start);
      StillLogged(t, u, Load(token), start);
      forall r | r in u.pend && r in u.calls
        ensures var p := u.pend[r];
                && Loaded(u.log, p.token, p.from)
                && Found(p.record)
                   == Updated(At(Look(start, p.token), u.log, p.token, p.from), Edit(CallChange(u.calls[r])))
      {
        if r != s { assert r in t.pend && r in t.calls && u.pend[r] == t.pend[r] && u.calls[r] == t.calls[r]; }
      }
    }
  }

  lemma EndKeepsLogged(t: Tracked, start: map<int, Record>)
    requires Orderly(t) && Logged(t, start) && t.logic.Fetched?
    requires t.logic.s in t.sys.links && t.sys.links[t.logic.s].up != []
    ensures Logged(EndStep(t), start)
  {
    hide Inv, Busy, LiveRight, FreshRead, Calling, At, ServerStep;
    var h, u := t.logic, EndStep(t);
    if h.read.Found? {
      var c := HandlerChange(h.registers);
      StoreLogged(t.sys.agents, t.log, h.token, h.from, Edit(c), Changed(h.read.r, c), start);
      StillLogged(t, u, Store(h.token, h.from, Edit(c)), start);
    } else if h.registers {
      var n := |t.sys.agents|;
      StoreLogged(t.sys.agents, t.log, h.token, h.from, Create(n), Record(n, true, false), start);
      StillLogged(t, u, Store(h.token, h.from, Create(n)), start);
    }
  }

  lemma MoveKeepsLogged(t: Tracked, m: Move, start: map<int, Record>)
    requires Orderly(t) && Logged(t, start)
    ensures Logged(MoveStep(t, m), start)
  {
    hide Inv, Busy, LiveRight, FreshRead, Calling, At, Look, CallStep, EndStep, Splits, Step;
    match m
    case Other(e) => if Allowed(t, e) { InvOf(t); AllowedIsQuiet(t, e); }
    case Call(s) => if s in t.sys.listed && s in t.sys.links { CallKeepsLogged(t, s, start); }
    case Begin(s) =>
    case Fetch =>
      if t.logic.Taken? {
        LoadLogged(t.sys.agents, t.log, t.logic.token, start);
        StillLogged(t, MoveStep(t, Fetch), Load(t.logic.token), start);
      }
    case End =>
      if t.logic.Fetched? && t.logic.s in t.sys.links && t.sys.links[t.logic.s].up != [] { EndKeepsLogged(t, start); }
    case Late(s) =>
  }

  lemma InvOf(t: Tracked)
    requires Orderly(t)
    ensures Inv(t.sys)
  {
  }

  lemma {:induction false} MovesKeepLogged(t: Tracked, ms: seq<Move>, start: map<int, Record>)
    requires Orderly(t) && Logged(t, start)
    ensures Orderly(Moves(t, ms)) && Logged(Moves(t, ms), start)
    decreases |ms|
  {
    hide Orderly, Logged, MoveStep;
    if ms != [] {
      MoveKeepsOrder(t, ms[0]);
      MoveKeepsLogged(t, ms[0], start);
      MovesKeepLogged(MoveStep(t, ms[0]), ms[1..], start);
    }
  }

  /** What the record of any agent says after any run, be the agent connected or gone: it is on if and only
      if the last update on the chain of writes that are not lost which switches it on or off switches it
      on, and recording if and only if the last one that starts or stops the recording starts it. The
      chain is read off the order of the accesses. */
  lemma FlagsExactly(start: System, ms: seq<Move>, token: int)
    requires Initial(start) && token in Moves(Started(start), ms).sys.agents
    ensures var end, before := Moves(Started(start), ms), Look(start.agents, token);
            var us, r := Chain(end.log, token), end.sys.agents[token];
            && (r.isOn <==> LastSets(us, SwitchesOn, SwitchesOff, before.Found? && before.r.isOn))
            && (r.isRecording <==> LastSets(us, Starts, Stops, before.Found? && before.r.isRecording))
  {
    hide Orderly;
    StartIsOrderly(start);
    MovesKeepLogged(Started(start), ms, start.agents);
    var end := Moves(Started(start), ms);
    assert end.log[..|end.log|] == end.log;
    assert Look(end.sys.agents, token) == At(Look(start.agents, token), end.log, token, |end.log|);
    FlagsAfter(Look(start.agents, token), Chain(end.log, token));
  }

  // ---------------------------------------------------------------------------------------
  // The calls of one disconnection, in the log

  /** A read at `r` and the write from it at `w`. */
  ghost predicate Pair(log: seq<Access>, token: int, since: nat, r: nat, w: nat, c: Change)
  {
    since <= r < w < |log| && log[r] == Load(token) && log[w] == Store(token, r, Edit(c))
  }

  lemma PairStays(log: seq<Access>, more: seq<Access>, token: int, since: nat, r: nat, w: nat, c: Change)
    requires Pair(log, token, since, r, w, c) && log <= more
    ensures Pair(more, token, since, r, w, c)
  {
  }

  /** The read under way. */
  ghost predicate Reading(t: Tracked, s: SockId, token: int, since: nat)
  {
    s in t.pend && t.pend[s].token == token && since <= t.pend[s].from && Loaded(t.log, token, t.pend[s].from)
  }

  /** What the log shows of a disconnection that began at `since`, with both pairs of places if they are
      there. */
  ghost predicate Noted(t: Tracked, s: SockId, token: int, since: nat, r1: nat, w1: nat, r2: nat, w2: nat)
  {
    && s in t.calls && s in t.sys.links && t.sys.links[s].token == token != NO_TOKEN
    && (t.calls[s] == 1 ==> Reading(t, s, token, since))
    && (t.calls[s] >= 2 ==> Pair(t.log, token, since, r1, w1, SetOn(false)))
    && (t.calls[s] == 3 ==> Reading(t, s, token, w1 + 1))
    && (t.calls[s] >= 4 ==> Pair(t.log, token, w1 + 1, r2, w2, StopRecording))
  }

  /** The disconnection of `s` is not over. */
  predicate Unfinished(t: Tracked, ms: seq<Move>, s: SockId)
    decreases |ms|
  {
    ms == [] || (!(ms[0] == Call(s) && Done(t, s) >= 4) && Unfinished(MoveStep(t, ms[0]), ms[1..], s))
  }

  lemma LogGrows(t: Tracked, m: Move)
    ensures t.log <= MoveStep(t, m).log
  {
    hide ServerStep, Step;
  }

  lemma {:induction false} LogGrowsOn(t: Tracked, ms: seq<Move>)
    ensures t.log <= Moves(t, ms).log
    decreases |ms|
  {
    hide MoveStep;
    if ms != [] {
      LogGrows(t, ms[0]);
      LogGrowsOn(MoveStep(t, ms[0]), ms[1..]);
    }
  }

  /** A registered socket keeps its token, and only its own calls count on and touch what it has read. */
  lemma OthersLeaveCalls(t: Tracked, m: Move, s: SockId)
    requires Orderly(t) && s in t.calls && s in t.sys.links && t.sys.links[s].token != NO_TOKEN && m != Call(s)
    ensures var u := MoveStep(t, m);
            && s in u.calls && u.calls[s] == t.calls[s]
            && s in u.sys.links && u.sys.links[s].token == t.sys.links[s].token
            && (s in t.pend ==> s in u.pend && u.pend[s] == t.pend[s])
  {
    hide Inv, Busy, LiveRight, FreshRead, Step, EndStep, CallStep, Splits;
    match m
    case Other(e) => if Allowed(t, e) { InvOf(t); AllowedIsQuiet(t, e); }
    case End => if t.logic.Fetched? { EndLeavesCalls(t, s); }
    case Call(r) => if r in t.sys.listed && r in t.sys.links { CallLeavesCalls(t, r); }
    case _ =>
  }

  lemma CallLeavesCalls(t: Tracked, r: SockId)
    requires r in t.sys.listed && r in t.sys.links
    ensures var u := CallStep(t, r);
            && u.sys.links == t.sys.links
            && forall s :: s != r ==>
                 && (s in t.calls ==> s in u.calls && u.calls[s] == t.calls[s])
                 && (s in t.pend ==> s in u.pend && u.pend[s] == t.pend[s])
  {
  }

  lemma EndLeavesCalls(t: Tracked, s: SockId)
    requires Orderly(t) && t.logic.Fetched? && s in t.calls && s in t.sys.links && t.sys.links[s].token != NO_TOKEN
    ensures t.logic.s in t.sys.links && t.sys.links[t.logic.s].up != []
    ensures var u := EndStep(t);
            && u.calls == t.calls && u.pend == t.pend
            && s in u.sys.links && u.sys.links[s].token == t.sys.links[s].token
  {
    hide Inv, LiveRight, FreshRead, ServerStep;
    HandlerServes(t);
    if t.logic.s == s { StageOfHandler(t); }
  }

  lemma DropKeepsLinks(sys: System, s: SockId)
    ensures Step(sys, Drop(s)).links == sys.links && Step(sys, Drop(s)).agents == sys.agents
  {
  }

  /** One move, with the places of the log that it adds. */
  lemma NotedStep(t: Tracked, m: Move, s: SockId, token: int, since: nat, r1: nat, w1: nat, r2: nat, w2: nat)
    returns (r1': nat, w1': nat, r2': nat, w2': nat)
    requires Orderly(t) && Noted(t, s, token, since, r1, w1, r2, w2) && !(m == Call(s) && Done(t, s) >= 4)
    ensures Noted(MoveStep(t, m), s, token, since, r1', w1', r2', w2')
  {
    hide Orderly, MoveStep;
    LogGrows(t, m);
    r1', w1', r2', w2' := r1, w1, r2, w2;
    if m == Call(s) {
      r1', w1', r2', w2' := NotedCall(t, s, token, since, r1, w1, r2, w2);
    } else {
      OthersLeaveCalls(t, m, s);
    }
  }

  lemma NotedCall(t: Tracked, s: SockId, token: int, since: nat, r1: nat, w1: nat, r2: nat, w2: nat)
    returns (r1': nat, w1': nat, r2': nat, w2': nat)
    requires Orderly(t) && Noted(t, s, token, since, r1, w1, r2, w2) && t.calls[s] < 4
    ensures Noted(MoveStep(t, Call(s)), s, token, since, r1', w1', r2', w2')
  {
    hide LinkOk, Numbered, LiveRight, FreshRead;
    r1', w1', r2', w2' := r1, w1, r2, w2;
    RegisteredIsKnown(t, s);
    if t.calls[s] == 1 {
      r1', w1' := t.pend[s].from, |t.log|;
    } else if t.calls[s] == 3 {
      r2', w2' := t.pend[s].from, |t.log|;
    } else {
      PairStays(t.log, MoveStep(t, Call(s)).log, token, since, r1, w1, SetOn(false));
    }
  }

  lemma RegisteredIsKnown(t: Tracked, s: SockId)
    requires Orderly(t) && s in t.sys.listed && s in t.sys.links && t.sys.links[s].token != NO_TOKEN
    ensures t.sys.links[s].token in t.sys.agents && Seen(t, s) == t.sys.links[s].token
  {
    hide Lockstep, Converges, Numbered, LiveRight, FreshRead, Calling;
    assert LinkOk(t.sys.links[s], t.sys.agents, t.sys.lists);
    if !t.logic.Idle? && t.logic.s == s && t.logic.registers { DueAtServer(t.sys.links[s]); }
  }

  lemma {:induction false} StillNoted(t: Tracked, ms: seq<Move>, s: SockId, token: int, since: nat,
                                      r1: nat, w1: nat, r2: nat, w2: nat)
    returns (r1': nat, w1': nat, r2': nat, w2': nat)
    requires Orderly(t) && Noted(t, s, token, since, r1, w1, r2, w2) && Unfinished(t, ms, s)
    ensures Orderly(Moves(t, ms)) && Noted(Moves(t, ms), s, token, since, r1', w1', r2', w2')
    decreases |ms|
  {
    hide Orderly, Noted, MoveStep;
    r1', w1', r2', w2' := r1, w1, r2, w2;
    if ms != [] {
      MoveKeepsOrder(t, ms[0]);
      r1', w1', r2', w2' := NotedStep(t, ms[0], s, token, since, r1, w1, r2, w2);
      r1', w1', r2', w2' := StillNoted(MoveStep(t, ms[0]), ms[1..], s, token, since, r1', w1', r2', w2');
    }
  }

  /** The four record accesses of a registered agent's disconnection stand in the log, in order. */
  lemma CallsAreLogged(t: Tracked, ms: seq<Move>, s: SockId) returns (r1: nat, w1: nat, r2: nat, w2: nat)
    requires Orderly(t) && Live(t, s)
    requires var began := MoveStep(t, Call(s)); Unfinished(began, ms, s) && Done(Moves(began, ms), s) == 4
    ensures var log, token := Moves(MoveStep(t, Call(s)), ms).log, t.sys.links[s].token;
            && t.log <= log
            && Pair(log, token, |t.log|, r1, w1, SetOn(false)) && Pair(log, token, w1 + 1, r2, w2, StopRecording)
  {
    hide Orderly;
    var token, began := t.sys.links[s].token, MoveStep(t, Call(s));
    RegisteredIsKnown(t, s);
    MoveKeepsOrder(t, Call(s));
    assert Noted(began, s, token, |t.log|, 0, 0, 0, 0);
    r1, w1, r2, w2 := StillNoted(began, ms, s, token, |t.log|, 0, 0, 0, 0);
    LogGrowsOn(began, ms);
  }

  /** From index `since` on, the record is written at these places and nowhere else. */
  ghost predicate StoredAt(log: seq<Access>, token: int, since: nat, places: set<nat>)
  {
    forall i :: since <= i < |log| && Stores(log[i], token) ==> i in places
  }

  /** The record of an agent that has gone. A registered agent is disconnected by the five calls, whatever
      happens between them and afterwards, packets handled late included. If no handler writes the record
      after the first call was made, it says neither on nor recording. If one does, which may have read
      the record before - from `since` on - and may write it at any time, then it says on if and only if
      the write falls between the two updates, or behind both, and the handler registered, or had read
      the record before the first update was written. It says recording if and only if the write falls
      behind both, and the handler started the recording, or had read the record before the second
      update was written and while it said so. */
  lemma GoneExactly(start: map<int, Record>, t: Tracked, ms: seq<Move>, s: SockId, more: seq<Move>, since: nat)
    returns (r1: nat, w1: nat, r2: nat, w2: nat)
    requires Orderly(t) && Logged(t, start) && Live(t, s) && since <= |t.log|
    requires var began := MoveStep(t, Call(s)); Unfinished(began, ms, s) && Done(Moves(began, ms), s) == 4
    requires StoredAt(t.log, t.sys.links[s].token, since, {})
    ensures var end := Moves(MoveStep(Moves(MoveStep(t, Call(s)), ms), Call(s)), more);
            var token, was := t.sys.links[s].token, t.sys.agents[t.sys.links[s].token];
            && Pair(end.log, token, |t.log|, r1, w1, SetOn(false))
            && Pair(end.log, token, w1 + 1, r2, w2, StopRecording)
            && token in end.sys.agents && var r := end.sys.agents[token];
            && (StoredAt(end.log, token, since, {w1, w2}) ==> !r.isOn && !r.isRecording)
            && forall a: nat, b: nat, registers ::
                 Handles(end.log, token, since, a, b, registers) && StoredAt(end.log, token, since, {w1, w2, b})
                 && b != w1 && b != w2
                 ==> && (r.isOn <==> (w1 < b < r2 || w2 < b) && (registers || a < w1))
                     && (r.isRecording <==> w2 < b && (!registers || (a < w2 && was.isRecording)))
  {
    hide Orderly, Logged, Moves, MoveStep;
    var began := MoveStep(t, Call(s));
    var last := Moves(began, ms);
    var gone := MoveStep(last, Call(s));
    var end, token := Moves(gone, more), t.sys.links[s].token;
    r1, w1, r2, w2 := CallsAreLogged(t, ms, s);
    LogGrows(last, Call(s));
    LogGrowsOn(gone, more);
    PairStays(last.log, end.log, token, |t.log|, r1, w1, SetOn(false));
    PairStays(last.log, end.log, token, w1 + 1, r2, w2, StopRecording);
    MoveKeepsOrder(t, Call(s));
    MoveKeepsLogged(t, Call(s), start);
    MovesKeepLogged(began, ms, start);
    MoveKeepsOrder(last, Call(s));
    MoveKeepsLogged(last, Call(s), start);
    MovesKeepLogged(gone, more, start);
    RecordsStay(t, Call(s));
    RecordsStayOn(began, ms);
    RecordsStay(last, Call(s));
    RecordsStayOn(gone, more);
    GoneSays(start, t, end, s, since, r1, w1, r2, w2);
  }

  /** Records are never removed. */
  lemma RecordsStay(t: Tracked, m: Move)
    requires Orderly(t)
    ensures t.sys.agents.Keys <= MoveStep(t, m).sys.agents.Keys
  {
    hide Inv, Busy, LiveRight, FreshRead, Calling, Step, ServerStep, Splits;
    InvOf(t);
    match m
    case Other(e) => if Allowed(t, e) { AllowedIsQuiet(t, e); }
    case Call(s) => DropKeepsLinks(t.sys, s);
    case _ =>
  }

  lemma {:induction false} RecordsStayOn(t: Tracked, ms: seq<Move>)
    requires Orderly(t)
    ensures t.sys.agents.Keys <= Moves(t, ms).sys.agents.Keys
    decreases |ms|
  {
    hide Orderly, MoveStep;
    if ms != [] {
      RecordsStay(t, ms[0]);
      MoveKeepsOrder(t, ms[0]);
      RecordsStayOn(MoveStep(t, ms[0]), ms[1..]);
    }
  }

  /** The record of a live agent, when nobody wrote it since `since`. */
  lemma RecordBefore(start: map<int, Record>, t: Tracked, s: SockId, since: nat, log: seq<Access>)
    requires Orderly(t) && Logged(t, start) && Live(t, s) && since <= |t.log| && t.log <= log
    requires StoredAt(t.log, t.sys.links[s].token, since, {})
    ensures var token := t.sys.links[s].token;
            token in t.sys.agents && t.sys.agents[token].isOn
            && At(Look(start, token), log, token, since) == Found(t.sys.agents[token])
  {
    hide Inv, Busy, FreshRead, Calling, At;
    var token := t.sys.links[s].token;
    assert Right(t.sys.agents, t.sys.links[s]);
    AtStays(Look(start, token), t.log, token, since, |t.log|);
    assert log == t.log + log[|t.log|..];
    AtPrefix(Look(start, token), t.log, log[|t.log|..], token, since);
    assert Look(t.sys.agents, token) == At(Look(start, token), t.log, token, |t.log|);
  }

  lemma GoneSays(start: map<int, Record>, t: Tracked, end: Tracked, s: SockId, since: nat,
                 r1: nat, w1: nat, r2: nat, w2: nat)
    requires Orderly(t) && Logged(t, start) && Live(t, s) && since <= |t.log| && Logged(end, start) && t.log <= end.log
    requires t.sys.agents.Keys <= end.sys.agents.Keys && StoredAt(t.log, t.sys.links[s].token, since, {})
    requires Pair(end.log, t.sys.links[s].token, |t.log|, r1, w1, SetOn(false))
    requires Pair(end.log, t.sys.links[s].token, w1 + 1, r2, w2, StopRecording)
    ensures var token := t.sys.links[s].token;
            && token in t.sys.agents
            && token in end.sys.agents
            && var was, r := t.sys.agents[token], end.sys.agents[token];
            && (StoredAt(end.log, token, since, {w1, w2}) ==> !r.isOn && !r.isRecording)
            && forall a: nat, b: nat, registers ::
                 Handles(end.log, token, since, a, b, registers) && StoredAt(end.log, token, since, {w1, w2, b})
                 && b != w1 && b != w2
                 ==> && (r.isOn <==> (w1 < b < r2 || w2 < b) && (registers || a < w1))
                     && (r.isRecording <==> w2 < b && (!registers || (a < w2 && was.isRecording)))
  {
    hide Orderly, At;
    var token := t.sys.links[s].token;
    RecordBefore(start, t, s, since, end.log);
    var o, log := Look(start, token), end.log;
    assert Look(end.sys.agents, token) == At(o, log, token, |log|);
    if StoredAt(log, token, since, {w1, w2}) {
      AtStays(o, log, token, since, r1);
      QuietDisconnect(o, log, token, r1, w1, r2, w2);
    }
    forall a: nat, b: nat, registers
      | Handles(log, token, since, a, b, registers) && StoredAt(log, token, since, {w1, w2, b}) && b != w1 && b != w2
      ensures var was, r := t.sys.agents[token], end.sys.agents[token];
              && (r.isOn <==> (w1 < b < r2 || w2 < b) && (registers || a < w1))
              && (r.isRecording <==> w2 < b && (!registers || (a < w2 && was.isRecording)))
    {
      DisconnectAndHandler(o, log, token, since, r1, w1, r2, w2, a, b, registers);
    }
  }
}
