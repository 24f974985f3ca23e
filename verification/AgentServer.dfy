/** The server of the session protocol, handler by handler, over a Redis of hashes and sets; and the
    agent's own handler. Each method is one step of `Session`, carried out with the branches and
    loops of the source. A socket is an entry of a table, keyed by its place in the socket pool. */
module AgentServers {
  import opened Session

  /** The default list, in the order in which it is pushed. */
  const DEFAULT_LIST: seq<Name> := ["Melon", "KakaoTalk", "notepad"]

  ghost predicate Distinct(s: seq<SockId>)
  {
    forall i, j :: 0 <= i < j < |s| ==> s[i] != s[j]
  }

  ghost function SetOf(names: seq<Name>): set<Name>
  {
    set n | n in names
  }

  lemma {:induction false} WithoutIsDistinct(listed: seq<SockId>, s: SockId)
    requires Distinct(listed)
    ensures Distinct(Without(listed, s))
  {
    if listed != [] {
      WithoutIsDistinct(listed[1..], s);
      assert listed[0] !in Without(listed[1..], s) by {
        assert forall x :: x in listed[1..] ==> x != listed[0];
      }
    }
  }

  lemma {:induction false} WithoutAppend(a: seq<SockId>, b: seq<SockId>, s: SockId)
    ensures Without(a + b, s) == Without(a, s) + Without(b, s)
  {
    if a == [] {
      assert a + b == b;
    } else {
      assert (a + b)[0] == a[0] && (a + b)[1..] == a[1..] + b;
      WithoutAppend(a[1..], b, s);
    }
  }

  lemma NumbersAreBelow(agents: map<int, Record>)
    requires Numbered(agents)
    ensures forall t :: t in agents ==> agents[t].number < |agents|
  {
  }

  lemma {:induction false} FindIgnoresLists(sys: System, lists: map<int, set<Name>>, token: int, i: nat)
    requires i <= |sys.listed|
    ensures Find(sys.(lists := lists), token, i) == Find(sys, token, i)
    decreases |sys.listed| - i
  {
    if i < |sys.listed| && !HasToken(sys, i, token) {
      FindIgnoresLists(sys, lists, token, i + 1);
    }
  }

  /** A list changes: whoever has another list is in order as before, and whoever has this one is as
      soon as the change is sent to them. */
  lemma ChangeNeedsOneMessage(sys: System, agentID: int, add: bool, name: Name)
    requires Inv(sys) && add != (name in Members(sys.lists, agentID))
    ensures var had := Members(sys.lists, agentID);
            InOrderOnceTold(sys.(lists := sys.lists[agentID := if add then had + {name} else had - {name}]),
                            agentID, add, name)
  {
    hide Lockstep;
    var had := Members(sys.lists, agentID);
    var lists := sys.lists[agentID := if add then had + {name} else had - {name}];
    forall s | s in sys.listed
      ensures LinkOk(if sys.links[s].agentID == agentID then Told(sys.links[s], add, name) else sys.links[s],
                     sys.agents, lists)
    {
      var l := sys.links[s];
      assert LinkOk(l, sys.agents, sys.lists);
      if l.agentID == agentID { ToldKeepsOrder(l, sys.lists, add, name); }
    }
  }

  ghost predicate InOrderOnceTold(sys: System, agentID: int, add: bool, name: Name)
  {
    forall s :: s in sys.listed && s in sys.links ==>
      LinkOk(if sys.links[s].agentID == agentID then Told(sys.links[s], add, name) else sys.links[s],
             sys.agents, sys.lists)
  }

  /** What the server sends back for a message `m` of an agent that is left with link `l`. */
  ghost predicate SendsBack(m: Up, was: Link, l: Link, agents: map<int, Record>, lists: map<int, set<Name>>)
  {
    match m
    case AgentIDRequest(token) =>
      if l.token == token && token in agents then l.down == was.down + [AgentIDResponse(agents[token].number, false)]
      else l.down == was.down + [AgentIDResponse(-1, true)]
    case ProcessListRequest => l.down == was.down + [ProcessListResponse(Members(lists, l.agentID))]
    case CounterListRequest(isMachine) => l.down == was.down + [CounterListResponse(isMachine)]
    case AgentReady => l.down == was.down + [StartRecord(true), StartRecord(false)]
    case RecordResponse(_) => l.down == was.down
    case HealthAck => l.down == was.down
  }

  /** An agent is told to record, both kinds, when its record says so; it is sent the list that it will
      have; and only an acknowledgement counts as being heard of. */
  lemma WhatHandlingMeans(sys: System, s: SockId)
    requires Inv(sys) && s in sys.listed && s in sys.links && sys.links[s].up != []
    ensures var m, now := sys.links[s].up[0], Step(sys, ServerHandles(s));
            && s in now.links
            && var was, l := sys.links[s], now.links[s];
            && SendsBack(m, was, l, now.agents, now.lists)
            && (m == AgentReady ==> l.token in now.agents && now.agents[l.token].isRecording)
            && (m == ProcessListRequest ==> Arrived(l.watch, l.down) == Members(now.lists, l.agentID) + l.strays)
            && (l.healthCheck <==> was.healthCheck || m == HealthAck)
  {
    hide Lockstep, InTransit, Numbered, Find, Converges;
    assert LinkOk(sys.links[s], sys.agents, sys.lists);
    DueAtServer(sys.links[s]);
    HandlingSends(sys, s);
    StepKeepsInv(sys, ServerHandles(s));
    var now := Step(sys, ServerHandles(s));
    assert LinkOk(now.links[s], now.agents, now.lists);
    if sys.links[s].up[0] == ProcessListRequest { SentListArrives(now.links[s], now.lists); }
  }

  lemma HandlingSends(sys: System, s: SockId)
    requires Inv(sys) && s in sys.listed && s in sys.links && sys.links[s].up != []
    ensures var m, now := sys.links[s].up[0], ServerStep(sys, s);
            && s in now.links && SendsBack(m, sys.links[s], now.links[s], now.agents, now.lists)
            && (now.links[s].healthCheck <==> sys.links[s].healthCheck || m == HealthAck)
  {
    hide Lockstep, Converges, Numbered, Find, Filled, Members;
    assert LinkOk(sys.links[s], sys.agents, sys.lists);
    DueAtServer(sys.links[s]);
  }

  lemma SentListArrives(l: Link, lists: map<int, set<Name>>)
    requires Converges(l, lists) && l.token != NO_TOKEN && l.stage >= 3
    ensures Arrived(l.watch, l.down) == Members(lists, l.agentID) + l.strays
  {
  }

  /** Only one listed socket has a registered token, and looking finds it. */
  lemma OneIsTold(sys: System, token: int)
    requires Inv(sys) && token != NO_TOKEN
    ensures var k := Find(sys, token, 0);
            forall s :: s in sys.listed && s in sys.links ==>
              (sys.links[s].token == token <==> k < |sys.listed| && s == sys.listed[k])
  {
    hide LinkOk, Numbered;
    if Find(sys, token, 0) == |sys.listed| {
      NotFound(sys, token);
    } else {
      assert HasToken(sys, Find(sys, token, 0), token);
    }
  }

  /** The name is in the list of the agent with this token or it is not, as the command says; no other
      list changes; and if something has changed, the one registered socket with the token is sent the
      change, and no other is sent anything. */
  ghost predicate WebChanges(was: System, now: System, token: int, add: bool, name: Name, success: bool)
  {
    var id := Session.GetAgentID(was.agents, token);
    && Members(now.lists, id) == (if add then Members(was.lists, id) + {name} else Members(was.lists, id) - {name})
    && (forall k :: k != id ==> Members(now.lists, k) == Members(was.lists, k))
    && (token != -1 ==>
          forall s :: s in was.listed && s in was.links ==>
            && s in now.links && now.links[s].token == was.links[s].token
            && now.links[s].down == was.links[s].down
                                    + if was.links[s].token == token && success
                                      then [if add then AddName(name) else DeleteName(name)] else [])
  }

  lemma WhatTheWebChanges(sys: System, token: int, add: bool, name: Name)
    requires Inv(sys)
    ensures WebChanges(sys, WebStep(sys, token, add, name), token, add, name,
                       add != (name in Members(sys.lists, Session.GetAgentID(sys.agents, token))))
  {
    hide Inv, Find;
    ListedHasLink(sys);
    if token != -1 { OneIsTold(sys, token); }
    var now := WebStep(sys, token, add, name);
    assert forall s :: s in sys.listed ==> sys.links[s].down + [] == sys.links[s].down;
  }

  lemma InvNumbers(sys: System)
    requires Inv(sys)
    ensures Numbered(sys.agents)
  {
  }

  /** What an agent makes of a message `m`. */
  ghost predicate Obeys(m: Down, was: Link, l: Link)
  {
    match m
    case AgentIDResponse(_, refused) =>
      l.up == (if refused then was.up else was.up + [ProcessListRequest]) && l.watch == was.watch
    case ProcessListResponse(names) =>
      l.up == was.up + [CounterListRequest(false)] && l.watch == was.watch + names
    case CounterListResponse(isMachine) =>
      l.up == was.up + [if isMachine then AgentReady else CounterListRequest(true)] && l.watch == was.watch
    case StartRecord(isMachine) =>
      l.up == was.up + [RecordResponse(isMachine)] && l.recording == was.recording + [isMachine]
    case AddName(name) => l.up == was.up && l.watch == was.watch + {name}
    case DeleteName(name) => l.up == was.up && l.watch == was.watch - {name}
    case HealthCheck => l.up == was.up + [HealthAck] && l.watch == was.watch
  }

  lemma AgentObeys(l: Link)
    requires l.down != []
    ensures Obeys(l.down[0], l, AgentStep(l))
  {
  }

  /** What the web side is sent back. */
  datatype CommandResponse = CommandResponse(token: int, add: bool, success: bool)

  class AgentServer {
    var agents: map<int, Record>
    var lists: map<int, set<Name>>
    var agentList: seq<SockId>
    var sockets: map<SockId, Link>
    var stale: seq<(int, Record)>

    /** Nobody is connected yet; Redis may hold what earlier runs left. */
    constructor (agents: map<int, Record>, lists: map<int, set<Name>>)
      requires Numbered(agents) && NO_TOKEN !in agents
      ensures Valid() && Now() == System(agents, lists, [], map[], [])
    {
      this.agents, this.lists, this.agentList, this.sockets, this.stale := agents, lists, [], map[], [];
    }

    ghost function Now(): System
      reads this
    {
      System(agents, lists, agentList, sockets, stale)
    }

    ghost predicate Linked()
      reads this
    {
      Distinct(agentList) && forall s :: s in agentList ==> s in sockets
    }

    /** The invariant of the protocol: numbering, exclusive tokens, lockstep and convergence. */
    ghost predicate Valid()
      reads this
    {
      Linked() && Inv(Now())
    }

    // -------------------------------------------------------------------------------------
    // RedisManager

    /** A new token gets the next number, a known one keeps its own, and the numbering stands. */
    method InitAgent(token: int)
      requires Valid()
      modifies this`agents
      ensures agents == Session.InitAgent(old(agents), token)
      ensures Numbered(agents) && KeepsNumbers(old(agents), agents) && token in agents && agents[token].isOn
      ensures token !in old(agents) ==>
                !agents[token].isRecording && forall t :: t in old(agents) ==> agents[t].number < agents[token].number
      ensures token in old(agents) ==> agents[token].isRecording == old(agents)[token].isRecording
      ensures forall t :: t in old(agents) && t != token ==> agents[t] == old(agents)[t]
      ensures token != NO_TOKEN ==> Valid()
    {
      hide LinkOk, Numbered;
      ghost var was := Now();
      InitNumbered(agents, token);
      NumbersAreBelow(agents);
      if token != NO_TOKEN { RenewKeepsInv(was, Session.InitAgent(agents, token)); }
      if token in agents {
        var jv := agents[token];
        agents := agents[token := jv.(isOn := true)];
        return;
      }
      var agentID := |agents|;
      agents := agents[token := Record(agentID, true, false)];
    }

    /** The number of a known token, which is no other token's; -1, which is nobody's, for another. */
    method GetAgentID(token: int) returns (id: int)
      requires Numbered(agents)
      ensures id == Session.GetAgentID(agents, token)
      ensures if token in agents
              then 0 <= id < |agents| && forall t :: t in agents && agents[t].number == id ==> t == token
              else id == -1 && forall t :: t in agents ==> agents[t].number != id
    {
      if token in agents {
        return agents[token].number;
      }
      return -1;
    }

    method ChangeAgentStateStartRecording(token: int)
      requires Valid()
      modifies this`agents
      ensures Valid() && KeepsNumbers(old(agents), agents)
      ensures agents == if token in old(agents)
                        then old(agents)[token := old(agents)[token].(isRecording := true)] else old(agents)
    {
      hide LinkOk, Numbered;
      if token in agents {
        ghost var was := Now();
        var jv := agents[token].(isRecording := true);
        RewriteNumbered(agents, token, jv);
        RenewKeepsInv(was, agents[token := jv]);
        agents := agents[token := jv];
      }
    }

    /** First half of a ChangeAgentState_* call. */
    method ReadAgentState(token: int, change: Change)
      requires Valid()
      modifies this`stale
      ensures Valid() && Now() == Step(old(Now()), ReadState(token, change))
      ensures agents == old(agents) && |stale| == |old(stale)| + if token in agents then 1 else 0
    {
      StepKeepsInv(Now(), ReadState(token, change));
      if token in agents {
        stale := stale + [(token, Changed(agents[token], change))];
      }
    }

    /** Second half: the record, by now possibly stale, is written back. */
    method WriteAgentState(k: nat)
      requires Valid()
      modifies this`stale, this`agents
      ensures Valid() && Now() == Step(old(Now()), WriteState(k)) && KeepsNumbers(old(agents), agents)
    {
      StepKeepsInv(Now(), WriteState(k));
      StepKeepsNumbers(Now(), WriteState(k));
      if k < |stale| {
        agents := agents[stale[k].0 := stale[k].1];
        stale := stale[..k] + stale[k + 1..];
      }
    }

    /** The members of the list in some order; an empty list is filled with the defaults first. */
    method GetProcessList(agentID: int) returns (resultList: seq<Name>)
      modifies this`lists
      ensures lists == Filled(old(lists), agentID)
      ensures SetOf(resultList) == Members(lists, agentID)
      ensures SetOf(resultList) == if Members(old(lists), agentID) == {} then {"Melon", "KakaoTalk", "notepad"}
                                   else Members(old(lists), agentID)
      ensures forall id :: id != agentID ==> Members(lists, id) == Members(old(lists), id)
    {
      resultList := [];
      var result := Members(lists, agentID);
      if result != {} {
        while result != {}
          invariant SetOf(resultList) + result == Members(lists, agentID)
          decreases result
        {
          var value :| value in result;
          ghost var before := SetOf(resultList);
          resultList := resultList + [value];
          result := result - {value};
          assert SetOf(resultList) == before + {value};
        }
      } else {
        var i := 0;
        while i < |DEFAULT_LIST|
          invariant 0 <= i <= |DEFAULT_LIST| && resultList == DEFAULT_LIST[..i]
          invariant i == 0 ==> lists == old(lists)
          invariant i > 0 ==> lists == old(lists)[agentID := SetOf(DEFAULT_LIST[..i])]
        {
          ghost var before := DEFAULT_LIST[..i];
          assert SetOf(before + [DEFAULT_LIST[i]]) == SetOf(before) + {DEFAULT_LIST[i]};
          assert i == 0 ==> SetOf(before) == {} == Members(lists, agentID);
          assert DEFAULT_LIST[..i + 1] == before + [DEFAULT_LIST[i]];
          lists := lists[agentID := Members(lists, agentID) + {DEFAULT_LIST[i]}];
          resultList := resultList + [DEFAULT_LIST[i]];
          i := i + 1;
        }
        assert DEFAULT_LIST[..|DEFAULT_LIST|] == DEFAULT_LIST;
        assert SetOf(DEFAULT_LIST) == DEFAULT_PROCESSES;
      }
    }

    /** SADD: succeeds if the name is new, and then one message to whoever has this list is all that
        is missing. */
    method SetProcessName(agentID: int, name: Name) returns (added: bool)
      requires Valid()
      modifies this`lists
      ensures added == (name !in Members(old(lists), agentID))
      ensures lists == if added then old(lists)[agentID := Members(old(lists), agentID) + {name}] else old(lists)
      ensures if added then InOrderOnceTold(Now(), agentID, true, name) else Valid()
    {
      hide Inv, InOrderOnceTold;
      added := name !in Members(lists, agentID);
      if added {
        ChangeNeedsOneMessage(Now(), agentID, true, name);
        lists := lists[agentID := Members(lists, agentID) + {name}];
      }
    }

    /** SREM: succeeds if the name was there, and then one message is all that is missing. */
    method RemProcessName(agentID: int, name: Name) returns (removed: bool)
      requires Valid()
      modifies this`lists
      ensures removed == (name in Members(old(lists), agentID))
      ensures lists == if removed then old(lists)[agentID := Members(old(lists), agentID) - {name}] else old(lists)
      ensures if removed then InOrderOnceTold(Now(), agentID, false, name) else Valid()
    {
      hide Inv, InOrderOnceTold;
      removed := name in Members(lists, agentID);
      if removed {
        ChangeNeedsOneMessage(Now(), agentID, false, name);
        lists := lists[agentID := Members(lists, agentID) - {name}];
      }
    }

    // -------------------------------------------------------------------------------------
    // TcpAgentServer

    /** Index of the first listed socket with the token, or the length of the list for NULL. */
    method GetAgentSocketByToken(token: int) returns (k: nat)
      requires Linked()
      ensures k == Find(Now(), token, 0)
      ensures k < |agentList| ==> agentList[k] in sockets && sockets[agentList[k]].token == token
      ensures k == |agentList| ==> forall s :: s in agentList ==> sockets[s].token != token
    {
      k := 0;
      while k < |agentList|
        invariant 0 <= k <= |agentList|
        invariant Find(Now(), token, 0) == Find(Now(), token, k)
        invariant forall j :: 0 <= j < k ==> sockets[agentList[j]].token != token
      {
        if sockets[agentList[k]].token == token {
          return;
        }
        k := k + 1;
      }
    }

    /** AcceptProcess: the socket is listed and its fields are reset; the agent asks for an ID. */
    method AcceptProcess(s: SockId, token: int)
      requires Valid() && s !in agentList
      modifies this`agentList, this`sockets
      ensures Valid() && Now() == Step(old(Now()), Accept(s, token))
      ensures forall r :: r in old(agentList) ==> sockets[r] == old(sockets)[r]
      ensures agentList == old(agentList) + [s] && var l := sockets[s];
              && l.token == l.agentID == -1 && l.healthCheck && !l.disconnectCall
              && l.agent == token && l.up == [AgentIDRequest(token)] && l.down == [] && l.watch == {}
    {
      StepKeepsInv(Now(), Accept(s, token));
      agentList := agentList + [s];
      var socket := Link(-1, -1, true, false, [], [], token, {}, [], [], [], 0, {});
      // the agent asks for its number as soon as it is connected
      sockets := sockets[s := Reply(socket, AgentIDRequest(token))];
      assert [] + [AgentIDRequest(token)] == [AgentIDRequest(token)];
    }

    /** DeleteAgent: `std::list::remove`. */
    method DeleteAgent(s: SockId)
      requires Valid()
      modifies this`agentList
      ensures Valid() && Now() == Step(old(Now()), Drop(s))
    {
      hide Inv;
      StepKeepsInv(Now(), Drop(s));
      ghost var was := agentList;
      WithoutIsDistinct(was, s);
      var kept: seq<SockId> := [];
      var i := 0;
      while i < |agentList|
        invariant agentList == was && 0 <= i <= |agentList| && kept == Without(agentList[..i], s)
      {
        WithoutAppend(agentList[..i], [agentList[i]], s);
        assert agentList[..i + 1] == agentList[..i] + [agentList[i]];
        assert [agentList[i]][1..] == [];
        if agentList[i] != s {
          kept := kept + [agentList[i]];
        }
        i := i + 1;
      }
      assert agentList[..i] == was;
      agentList := kept;
    }

    /** First phase of HeartbeatCheck. */
    method HeartbeatAsk()
      requires Valid()
      modifies this`sockets
      ensures Valid() && Now() == Step(old(Now()), HeartbeatStart)
      ensures forall r :: r in agentList ==>
                !sockets[r].healthCheck && sockets[r].down == old(sockets)[r].down + [HealthCheck]
      ensures forall r :: r in old(sockets) && r !in agentList ==> r in sockets && sockets[r] == old(sockets)[r]
    {
      hide Inv;
      StepKeepsInv(Now(), HeartbeatStart);
      var i := 0;
      while i < |agentList|
        invariant 0 <= i <= |agentList| && sockets.Keys == old(sockets).Keys
        invariant forall r :: r in sockets ==>
                    sockets[r] == if r in agentList[..i] then Asked(old(sockets)[r]) else old(sockets)[r]
      {
        var s := agentList[i];
        assert s !in agentList[..i];
        var socket := sockets[s];
        socket := socket.(healthCheck := false);
        socket := Send(socket, HealthCheck);
        sockets := sockets[s := socket];
        assert agentList[..i + 1] == agentList[..i] + [s];
        i := i + 1;
      }
      assert agentList[..i] == agentList;
      assert sockets == Step(old(Now()), HeartbeatStart).links;
    }

    /** Second phase of HeartbeatCheck. */
    method HeartbeatEvict()
      requires Valid()
      modifies this`sockets
      ensures Valid() && Now() == Step(old(Now()), HeartbeatEnd)
      ensures forall r :: r in agentList ==>
                var was, l := old(sockets)[r], sockets[r];
                (l.disconnectCall <==> was.disconnectCall || !was.healthCheck) && l.down == was.down && l.up == was.up
      ensures forall r :: r in old(sockets) && r !in agentList ==> r in sockets && sockets[r] == old(sockets)[r]
    {
      hide Inv;
      StepKeepsInv(Now(), HeartbeatEnd);
      var i := 0;
      while i < |agentList|
        invariant 0 <= i <= |agentList| && sockets.Keys == old(sockets).Keys
        invariant forall r :: r in sockets ==>
                    sockets[r] == if r in agentList[..i] then Judged(old(sockets)[r]) else old(sockets)[r]
      {
        var s := agentList[i];
        assert s !in agentList[..i];
        if !sockets[s].healthCheck {
          sockets := sockets[s := sockets[s].(disconnectCall := true)];
        }
        assert agentList[..i + 1] == agentList[..i] + [s];
        i := i + 1;
      }
      assert agentList[..i] == agentList;
      assert sockets == Step(old(Now()), HeartbeatEnd).links;
    }

    // -------------------------------------------------------------------------------------
    // Packet handlers

    /** AgentSocket::PacketHandling: one message of the agent of socket `s`. */
    method AgentPacketHandling(s: SockId)
      requires Valid() && s in agentList && sockets[s].up != []
      modifies this`agents, this`lists, this`sockets
      ensures Valid() && Now() == Step(old(Now()), ServerHandles(s)) && KeepsNumbers(old(agents), agents)
      ensures var m, was, l := old(sockets[s].up[0]), old(sockets)[s], sockets[s];
              && SendsBack(m, was, l, agents, lists)
              && (m == AgentReady ==> l.token in agents && agents[l.token].isRecording)
              && (m == ProcessListRequest ==> Arrived(l.watch, l.down) == Members(lists, l.agentID) + l.strays)
              && (l.healthCheck <==> was.healthCheck || m == HealthAck)
    {
      hide Inv, Find, Filled, Members, Numbered, KeepsNumbers, Arrived, SendsBack, Session.InitAgent,
        Session.GetAgentID;
      StepKeepsInv(Now(), ServerHandles(s));
      StepKeepsNumbers(Now(), ServerHandles(s));
      WhatHandlingMeans(Now(), s);
      var packet := sockets[s].up[0];
      var socket := sockets[s].(up := sockets[s].up[1..]);
      match packet
      case AgentIDRequest(token) =>
        AnswerAgentIDRequest(s, token);
      case ProcessListRequest =>
        SendProcessListResponse(s);
      case CounterListRequest(isMachine) =>
        socket := Send(socket, CounterListResponse(isMachine));
        sockets := sockets[s := socket.(stage := socket.stage + 1)];
      case AgentReady =>
        ChangeAgentStateStartRecording(socket.token);
        socket := Send(socket, StartRecord(true));
        socket := Send(socket, StartRecord(false));
        sockets := sockets[s := socket.(stage := socket.stage + 1)];
      case RecordResponse(isMachine) =>
        sockets := sockets[s := socket.(responses := socket.responses + [isMachine])];
      case HealthAck =>
        sockets := sockets[s := socket.(healthCheck := true)];
    }

    method AnswerAgentIDRequest(s: SockId, token: int)
      requires Valid() && s in agentList && sockets[s].up != [] && sockets[s].up[0] == AgentIDRequest(token)
      modifies this`agents, this`sockets
      ensures Linked() && Now() == ServerStep(old(Now()), s)
    {
      hide Inv, Find, Numbered, KeepsNumbers, Session.InitAgent, Session.GetAgentID;
      var socket := sockets[s].(up := sockets[s].up[1..]);
      var k := GetAgentSocketByToken(token);
      if k < |agentList| {
        socket := Send(socket, AgentIDResponse(-1, true));
      } else {
        InitAgent(token);
        var id := GetAgentID(token);
        socket := Send(socket.(token := token, agentID := id), AgentIDResponse(id, false));
      }
      sockets := sockets[s := socket.(stage := socket.stage + 1)];
    }

    method SendProcessListResponse(s: SockId)
      requires Linked() && s in agentList && sockets[s].up != [] && sockets[s].up[0] == ProcessListRequest
      modifies this`lists, this`sockets
      ensures Linked() && Now() == ServerStep(old(Now()), s)
    {
      hide Filled, Members;
      var socket := sockets[s].(up := sockets[s].up[1..]);
      var processList := GetProcessList(socket.agentID);
      var names := set n | n in processList;
      socket := Send(socket, ProcessListResponse(names));
      sockets := sockets[s := socket.(stage := socket.stage + 1, strays := socket.strays - names)];
    }

    /** WebCommandSocket::PacketHandling of a ProcessCommandRequest; the web is told of success
        exactly if the Redis set has changed. */
    method ProcessCommandRequest(token: int, add: bool, name: Name) returns (response: CommandResponse)
      requires Valid()
      modifies this`lists, this`sockets
      ensures Valid() && Now() == Step(old(Now()), WebCommand(token, add, name))
      ensures response.token == token && response.add == add
      ensures response.success <==> Members(lists, Session.GetAgentID(agents, token))
                                    != Members(old(lists), Session.GetAgentID(agents, token))
      ensures WebChanges(old(Now()), Now(), token, add, name, response.success)
    {
      hide Inv, InOrderOnceTold, WebChanges, Find;
      StepKeepsInv(Now(), WebCommand(token, add, name));
      InvNumbers(Now());
      var agentID := GetAgentID(token);
      ghost var was := Now();
      var result := false;
      if add {
        var ok := SetProcessName(agentID, name);
        if ok {
          FindIgnoresLists(was, lists, token, 0);
          Tell(token, add, name);
          result := true;
        }
      } else {
        var ok := RemProcessName(agentID, name);
        if ok {
          FindIgnoresLists(was, lists, token, 0);
          Tell(token, add, name);
          result := true;
        }
      }
      response := CommandResponse(token, add, result);
      WhatTheWebChanges(was, token, add, name);
    }

    /** AddProcessName or DeleteProcessName on the live socket with this token, if there is one: when
        all its messages have arrived, its agent watches the name, or does not. */
    method Tell(token: int, add: bool, name: Name)
      requires Linked()
      modifies this`sockets
      ensures Linked()
      ensures var k := Find(old(Now()), token, 0);
              && sockets == (if k == |agentList| then old(sockets)
                             else old(sockets)[agentList[k] := Told(old(sockets)[agentList[k]], add, name)])
              && (k < |agentList| ==>
                    var was, l := old(sockets)[agentList[k]], sockets[agentList[k]];
                    Arrived(l.watch, l.down)
                    == if add then Arrived(was.watch, was.down) + {name} else Arrived(was.watch, was.down) - {name})
    {
      var k := GetAgentSocketByToken(token);
      if k < |agentList| {
        var s := agentList[k];
        var l := sockets[s];
        var m := if add then AddName(name) else DeleteName(name);
        ArrivedSnoc(l.watch, l.down, m);
        var strays := if add && l.token == NO_TOKEN then l.strays + {name} else l.strays - {name};
        sockets := sockets[s := l.(down := l.down + [m], strays := strays)];
      }
    }

    /** AgentClientSocket::PacketHandling: one message to the agent of socket `s`. */
    method ClientPacketHandling(s: SockId)
      requires Valid() && s in agentList && sockets[s].down != []
      modifies this`sockets
      ensures Valid() && Now() == Step(old(Now()), AgentHandles(s))
      ensures Arrived(sockets[s].watch, sockets[s].down) == old(Arrived(sockets[s].watch, sockets[s].down))
      ensures Obeys(old(sockets[s].down[0]), old(sockets)[s], sockets[s])
    {
      hide Inv, Arrived, Effect, Obeys;
      AgentObeys(sockets[s]);
      StepKeepsInv(Now(), AgentHandles(s));
      AgentStepArrives(sockets[s]);
      var packet := sockets[s].down[0];
      var client := sockets[s].(down := sockets[s].down[1..]);
      match packet {
        case AgentIDResponse(id, alreadyRunning) =>
          client := client.(stage := client.stage + 1);
          if !alreadyRunning {
            client := Reply(client, ProcessListRequest);
          }
          assert client == AgentStep(sockets[s]);
        case ProcessListResponse(names) =>
          var rest := names;
          while rest != {}
            invariant client.watch + rest == sockets[s].watch + names && rest <= names
            invariant client == sockets[s].(down := sockets[s].down[1..], watch := client.watch)
            decreases rest
          {
            var name :| name in rest;
            client := client.(watch := client.watch + {name});
            rest := rest - {name};
          }
          client := client.(applied := client.applied + [Processes], stage := client.stage + 1);
          client := Reply(client, CounterListRequest(false));
          assert client == AgentStep(sockets[s]);
        case CounterListResponse(isMachine) =>
          client := client.(stage := client.stage + 1);
          if !isMachine {
            client := Reply(client.(applied := client.applied + [ProcessCounters]), CounterListRequest(true));
          } else {
            client := Reply(client.(applied := client.applied + [MachineCounters]), AgentReady);
          }
          assert client == AgentStep(sockets[s]);
        case StartRecord(isMachine) =>
          client := Reply(client, RecordResponse(isMachine)).(recording := client.recording + [isMachine]);
          assert client == AgentStep(sockets[s]);
        case AddName(name) =>
          client := client.(watch := client.watch + {name});
          assert client == AgentStep(sockets[s]);
        case DeleteName(name) =>
          client := client.(watch := client.watch - {name});
          assert client == AgentStep(sockets[s]);
        case HealthCheck =>
          client := Reply(client, HealthAck);
          assert client == AgentStep(sockets[s]);
      }
      sockets := sockets[s := client];
    }
  }
}
