/** Two runs after which nobody is connected and a record still says that its agent is on. */
module LateWrites {
  import opened Session
  import opened Records
  import opened Disconnects

  function FiveCalls(s: SockId): seq<Move> { [Call(s), Call(s), Call(s), Call(s), Call(s)] }

  lemma {:induction false} MovesAppend(t: Tracked, a: seq<Move>, b: seq<Move>)
    ensures Moves(t, a + b) == Moves(Moves(t, a), b)
    decreases |a|
  {
    hide MoveStep;
    if a == [] {
      assert a + b == b;
    } else {
      assert (a + b)[0] == a[0] && (a + b)[1..] == a[1..] + b;
      MovesAppend(MoveStep(t, a[0]), a[1..], b);
    }
  }

  lemma OneMove(t: Tracked, m: Move, rest: seq<Move>)
    ensures Moves(t, [m] + rest) == Moves(MoveStep(t, m), rest)
    ensures Moves(t, []) == t
  {
    assert ([m] + rest)[0] == m && ([m] + rest)[1..] == rest;
  }

  /** One call: the links and the handler under way stay, and the socket is counted on or removed. */
  lemma OneCall(t: Tracked, s: SockId)
    requires s in t.sys.listed && s in t.sys.links
    ensures var u := MoveStep(t, Call(s));
            && u.sys.links == t.sys.links && u.logic == t.logic
            && (if Done(t, s) >= 4 then s !in u.sys.listed
                else u.sys.listed == t.sys.listed && Done(u, s) == Done(t, s) + 1)
  {
  }

  lemma AllCalls(t: Tracked, s: SockId)
    requires s in t.sys.listed && s in t.sys.links && s !in t.calls
    ensures var u := Moves(t, FiveCalls(s));
            s !in u.sys.listed && u.sys.links == t.sys.links && u.logic == t.logic
  {
    hide MoveStep;
    var t1 := MoveStep(t, Call(s));
    var t2 := MoveStep(t1, Call(s));
    var t3 := MoveStep(t2, Call(s));
    var t4 := MoveStep(t3, Call(s));
    OneCall(t, s);
    OneCall(t1, s);
    OneCall(t2, s);
    OneCall(t3, s);
    OneCall(t4, s);
    OneMove(t, Call(s), [Call(s), Call(s), Call(s), Call(s)]);
    OneMove(t1, Call(s), [Call(s), Call(s), Call(s)]);
    OneMove(t2, Call(s), [Call(s), Call(s)]);
    OneMove(t3, Call(s), [Call(s)]);
    OneMove(t4, Call(s), []);
    OneMove(MoveStep(t4, Call(s)), Call(s), []);
    assert FiveCalls(s) == [Call(s)] + [Call(s), Call(s), Call(s), Call(s)];
  }

  /** In any state in which a live agent's AgentReady comes next: if its handler reads the record, all of
      the disconnection follows and then the handler writes, the record of the agent that has gone says
      on and recording. */
  lemma HeldRecordReturns(t: Tracked, s: SockId)
    requires Orderly(t) && t.logic.Idle? && Live(t, s)
    requires t.sys.links[s].up != [] && t.sys.links[s].up[0] == AgentReady
    ensures var end, token := Moves(t, [Begin(s), Fetch] + FiveCalls(s) + [End]), t.sys.links[s].token;
            && s !in end.sys.listed && token in end.sys.agents
            && end.sys.agents[token].isOn && end.sys.agents[token].isRecording
  {
    hide Orderly, Moves, FiveCalls;
    var token := t.sys.links[s].token;
    assert Right(t.sys.agents, t.sys.links[s]) by { LiveIsRight(t, s); }
    var read := ItReads(t, s);
    AllCalls(read, s);
    var called := Moves(read, FiveCalls(s));
    MovesAppend(t, [Begin(s), Fetch], FiveCalls(s));
    MovesAppend(t, [Begin(s), Fetch] + FiveCalls(s), [End]);
    OneMove(called, End, []);
    OneMove(MoveStep(called, End), End, []);
    assert [End] + [] == [End];
    ItWrites(called, t.sys.agents[token]);
  }

  lemma LiveIsRight(t: Tracked, s: SockId)
    requires Orderly(t) && Live(t, s)
    ensures Right(t.sys.agents, t.sys.links[s])
  {
    hide Inv;
  }

  lemma ItReads(t: Tracked, s: SockId) returns (u: Tracked)
    requires t.logic.Idle? && Live(t, s) && t.sys.links[s].up != [] && t.sys.links[s].up[0] == AgentReady
    requires t.sys.links[s].token in t.sys.agents
    ensures u == Moves(t, [Begin(s), Fetch]) && u.sys == t.sys && u.calls == t.calls
    ensures var token := t.sys.links[s].token;
            u.logic == Fetched(s, token, false, Found(t.sys.agents[token]), |t.log|)
  {
    u := MoveStep(MoveStep(t, Begin(s)), Fetch);
    OneMove(t, Begin(s), [Fetch]);
    OneMove(MoveStep(t, Begin(s)), Fetch, []);
    OneMove(u, Fetch, []);
    assert [Begin(s)] + [Fetch] == [Begin(s), Fetch] && [Fetch] + [] == [Fetch];
  }

  lemma ItWrites(t: Tracked, r: Record)
    requires t.logic.Fetched? && !t.logic.registers && t.logic.read == Found(r)
    requires t.logic.s in t.sys.links && t.sys.links[t.logic.s].up != []
    requires t.sys.links[t.logic.s].up[0] == AgentReady
    ensures var u := MoveStep(t, End);
            && u.sys.listed == t.sys.listed && t.logic.token in u.sys.agents
            && u.sys.agents[t.logic.token] == r.(isRecording := true)
  {
  }

  // ---------------------------------------------------------------------------------------
  // From the first connection on

  /** Agent 5 on socket 0, and nobody else; its list is in Redis already. */
  function Alone(l: Link, agents: map<int, Record>, log: seq<Access>): Tracked
  {
    Tracked(System(agents, map[0 := {"app"}], [0], map[0 := l], []), map[], map[], Idle, log)
  }

  const EMPTY: System := System(map[], map[0 := {"app"}], [], map[], [])
  const AGENT: map<int, Record> := map[5 := Record(0, true, false)]
  const LOGIN: seq<Move> := [Begin(0), Fetch, End]

  lemma ItConnects()
    ensures Initial(EMPTY) && MoveStep(Started(EMPTY), Other(Accept(0, 5))) == Alone(Fresh(5), map[], [])
  {
  }

  /** The registration, in an empty Redis, of a socket that is listed or is not. */
  lemma ItRegisters(t: Tracked)
    requires t.logic.Idle? && t.sys.agents == map[] && t.sys.links == map[0 := Fresh(5)]
    requires t.sys.listed == [0] || t.sys.listed == []
    ensures var u := Moves(t, LOGIN);
            && u == t.(sys := t.sys.(agents := AGENT, links := map[0 := Registered()]), log := u.log)
  {
    hide Find, InitAgent, Moves;
    assert Fresh(5).up == [AgentIDRequest(5)] && Fresh(5).up[1..] == [];
    assert Find(t.sys, 5, 0) == |t.sys.listed| by { NobodyHasToken(t.sys, 5); }
    assert InitAgent(map[], 5) == AGENT by { FirstAgent(5); }
    var t1 := MoveStep(t, Begin(0));
    var t2 := MoveStep(t1, Fetch);
    var t3 := MoveStep(t2, End);
    assert t2.logic == Fetched(0, 5, true, Nothing, |t.log|) && t2.sys == t.sys;
    assert t.sys.links[0 := Registered()] == map[0 := Registered()];
    assert t.sys.agents[5 := Record(|t.sys.agents|, true, false)] == AGENT;
    assert GetAgentID(AGENT, 5) == 0 && Fresh(5).down + [AgentIDResponse(0, false)] == [AgentIDResponse(0, false)];
    assert ServerStep(t.sys, 0).links == map[0 := Registered()];
    assert t3.sys == t.sys.(agents := AGENT, links := map[0 := Registered()]);
    OneMove(t, Begin(0), [Fetch, End]);
    OneMove(t1, Fetch, [End]);
    OneMove(t2, End, []);
    OneMove(t3, End, []);
    assert LOGIN == [Begin(0)] + [Fetch, End] && [Fetch] + [End] == [Fetch, End] && [End] + [] == [End];
  }

  function Registered(): Link
  {
    Link(5, 0, true, false, [AgentIDResponse(0, false)], [], 5, {}, [], [], [], 1, {})
  }

  /** Agent 5 connects and goes, and its registration is handled afterwards. */
  lemma LateRegistrationStaysOn()
    ensures var end := Moves(Started(EMPTY), [Other(Accept(0, 5))] + FiveCalls(0) + LOGIN);
            Initial(EMPTY) && end.sys.listed == [] && end.calls == map[] && end.sys.agents == AGENT
  {
    hide Moves, MoveStep, FiveCalls;
    ItConnects();
    var t0 := Alone(Fresh(5), map[], []);
    OneMove(Started(EMPTY), Other(Accept(0, 5)), []);
    OneMove(t0, Fetch, []);
    assert [Other(Accept(0, 5))] + [] == [Other(Accept(0, 5))];
    MovesAppend(Started(EMPTY), [Other(Accept(0, 5))], FiveCalls(0));
    MovesAppend(Started(EMPTY), [Other(Accept(0, 5))] + FiveCalls(0), LOGIN);
    UnregisteredGoes(t0);
    ItRegisters(Moves(t0, FiveCalls(0)));
  }

  lemma UnregisteredGoes(t: Tracked)
    requires t == Alone(Fresh(5), map[], [])
    ensures Moves(t, FiveCalls(0)) == t.(sys := t.sys.(listed := []))
  {
    hide Moves, MoveStep;
    var m := Call(0);
    var t1 := CountedOn(t);
    var t2 := CountedOn(t1);
    var t3 := CountedOn(t2);
    var t4 := CountedOn(t3);
    var t5 := Removed(t4);
    OneMove(t, m, [m, m, m, m]);
    OneMove(t1, m, [m, m, m]);
    OneMove(t2, m, [m, m]);
    OneMove(t3, m, [m]);
    OneMove(t4, m, []);
    OneMove(t5, m, []);
    assert FiveCalls(0) == [m] + [m, m, m, m] && [m, m, m, m] == [m] + [m, m, m];
    assert [m, m, m] == [m] + [m, m] && [m, m] == [m] + [m] && [m] == [m] + [];
    assert Moves(t, FiveCalls(0)) == t5;
    assert t5 == t.(sys := t.sys.(listed := []), calls := map[]);
  }

  /** The record calls of a socket without a token do nothing. */
  lemma CountedOn(t: Tracked) returns (u: Tracked)
    requires t.sys == Alone(Fresh(5), map[], []).sys && t.logic.Idle? && t.pend == map[] && Done(t, 0) < 4
    requires t.calls.Keys <= {0}
    ensures u == MoveStep(t, Call(0)) && u == t.(calls := map[0 := Done(t, 0) + 1])
  {
    u := MoveStep(t, Call(0));
    assert t.calls[0 := Done(t, 0) + 1] == map[0 := Done(t, 0) + 1];
  }

  lemma Removed(t: Tracked) returns (u: Tracked)
    requires t.sys.listed == [0] && 0 in t.sys.links && t.calls == map[0 := 4]
    ensures u == MoveStep(t, Call(0)) && u == t.(sys := t.sys.(listed := []), calls := map[])
  {
    u := MoveStep(t, Call(0));
    assert Without([0], 0) == Without([0][1..], 0) && [0][1..] == [];
    assert t.calls - {0} == map[];
  }

  /** The handshake of agent 5, up to its AgentReady. */
  const HANDSHAKE: seq<Move> :=
    [Other(AgentHandles(0)), Other(ServerHandles(0)), Other(AgentHandles(0)), Other(ServerHandles(0)),
     Other(AgentHandles(0)), Other(ServerHandles(0)), Other(AgentHandles(0))]

  lemma AgentMoves(l: Link, log: seq<Access>)
    requires l.down != []
    ensures MoveStep(Alone(l, AGENT, log), Other(AgentHandles(0))) == Alone(AgentStep(l), AGENT, log)
  {
    assert map[0 := l][0 := AgentStep(l)] == map[0 := AgentStep(l)];
  }

  /** The server's answer to a list request. */
  function Answered(l: Link): Link
    requires l.up != [] && (l.up[0].ProcessListRequest? || l.up[0].CounterListRequest?)
  {
    var rest := l.(up := l.up[1..]);
    if l.up[0].ProcessListRequest? then
      Send(rest, ProcessListResponse({"app"})).(stage := l.stage + 1, strays := l.strays - {"app"})
    else Send(rest, CounterListResponse(l.up[0].isMachine)).(stage := l.stage + 1)
  }

  lemma ServerMoves(l: Link, log: seq<Access>)
    requires l.agentID == 0 && l.up != [] && (l.up[0].ProcessListRequest? || l.up[0].CounterListRequest?)
    ensures MoveStep(Alone(l, AGENT, log), Other(ServerHandles(0))) == Alone(Answered(l), AGENT, log)
  {
    var lists: map<int, set<Name>> := map[0 := {"app"}];
    assert Members(lists, 0) == {"app"} && Filled(lists, 0) == lists;
    assert map[0 := l][0 := Answered(l)] == map[0 := Answered(l)];
  }

  /** It ends with AgentReady as the next packet. */
  lemma ItShakesHands(log: seq<Access>) returns (l: Link)
    ensures Moves(Alone(Registered(), AGENT, log), HANDSHAKE) == Alone(l, AGENT, log)
    ensures l.token == 5 && l.up == [AgentReady] && l.stage == 8
  {
    hide Moves, MoveStep;
    var a, s := Other(AgentHandles(0)), Other(ServerHandles(0));
    var l0 := Registered();
    AgentMoves(l0, log);
    var l1 := AgentStep(l0);
    assert l1.down == [] && l1.up == [ProcessListRequest];
    ServerMoves(l1, log);
    var l2 := Answered(l1);
    assert l2.down == [ProcessListResponse({"app"})] && l2.up == [];
    AgentMoves(l2, log);
    var l3 := AgentStep(l2);
    assert l3.down == [] && l3.up == [CounterListRequest(false)];
    ServerMoves(l3, log);
    var l4 := Answered(l3);
    assert l4.down == [CounterListResponse(false)] && l4.up == [];
    AgentMoves(l4, log);
    var l5 := AgentStep(l4);
    assert l5.down == [] && l5.up == [CounterListRequest(true)];
    ServerMoves(l5, log);
    var l6 := Answered(l5);
    assert l6.down == [CounterListResponse(true)] && l6.up == [];
    AgentMoves(l6, log);
    l := AgentStep(l6);
    SevenMoves(Alone(l0, AGENT, log), a, s);
  }

  lemma SevenMoves(t: Tracked, a: Move, s: Move)
    ensures Moves(t, [a, s, a, s, a, s, a])
            == MoveStep(MoveStep(MoveStep(MoveStep(MoveStep(MoveStep(MoveStep(t, a), s), a), s), a), s), a)
  {
    hide MoveStep;
    OneMove(t, a, [s, a, s, a, s, a]);
    var t1 := MoveStep(t, a);
    OneMove(t1, s, [a, s, a, s, a]);
    var t2 := MoveStep(t1, s);
    OneMove(t2, a, [s, a, s, a]);
    var t3 := MoveStep(t2, a);
    OneMove(t3, s, [a, s, a]);
    var t4 := MoveStep(t3, s);
    OneMove(t4, a, [s, a]);
    var t5 := MoveStep(t4, a);
    OneMove(t5, s, [a]);
    OneMove(MoveStep(t5, s), a, []);
    OneMove(MoveStep(MoveStep(t5, s), a), a, []);
  }

  /** Agent 5 connects, registers and gets ready; the handler of AgentReady reads its record, agent 5 goes,
      and the handler writes: nobody is connected, and the record says on and recording. */
  lemma LateWriteStaysOn()
    ensures var before := [Other(Accept(0, 5))] + LOGIN + HANDSHAKE;
            var end := Moves(Started(EMPTY), before + ([Begin(0), Fetch] + FiveCalls(0) + [End]));
            && Initial(EMPTY) && 0 !in end.sys.listed
            && 5 in end.sys.agents && end.sys.agents[5].isOn && end.sys.agents[5].isRecording
  {
    hide Moves, MoveStep, FiveCalls, Orderly, Initial;
    ItConnects();
    var t0 := Alone(Fresh(5), map[], []);
    OneMove(Started(EMPTY), Other(Accept(0, 5)), []);
    OneMove(t0, Fetch, []);
    assert [Other(Accept(0, 5))] + [] == [Other(Accept(0, 5))];
    ItRegisters(t0);
    var log := Moves(t0, LOGIN).log;
    var l := ItShakesHands(log);
    var before := [Other(Accept(0, 5))] + LOGIN + HANDSHAKE;
    MovesAppend(Started(EMPTY), [Other(Accept(0, 5))], LOGIN);
    MovesAppend(Started(EMPTY), [Other(Accept(0, 5))] + LOGIN, HANDSHAKE);
    MovesAppend(Started(EMPTY), before, [Begin(0), Fetch] + FiveCalls(0) + [End]);
    StartIsOrderly(EMPTY);
    MovesKeepOrder(Started(EMPTY), before);
    HeldRecordReturns(Alone(l, AGENT, log), 0);
  }
}
