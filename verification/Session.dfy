/** The agent/server/web session protocol. A step is one handler run to its end: the server's
    logic thread handling one packet of an agent or of the web side, an agent handling one packet,
    a connection coming or going, half of a record update, or one phase of the heartbeat. */
module Session {
  type Name = string
  type SockId = nat

  /** Server to agent. */
  datatype Down =
    | AgentIDResponse(id: int, alreadyRunning: bool)
    | ProcessListResponse(names: set<Name>)
    | CounterListResponse(isMachine: bool)
    | StartRecord(isMachine: bool)
    | AddName(name: Name)
    | DeleteName(name: Name)
    | HealthCheck

  /** Agent to server. */
  datatype Up =
    | AgentIDRequest(token: int)
    | ProcessListRequest
    | CounterListRequest(isMachine: bool)
    | AgentReady
    | RecordResponse(isMachine: bool)
    | HealthAck

  datatype ListKind = Processes | ProcessCounters | MachineCounters

  /** One connection: the fields of the server's socket, the two FIFO channels, and the agent at
      the other end: its token, the processes it watches, and the recordings it has started, by kind.
      The rest is history: the recordings the server knows to be started, the lists the agent has taken
      over, how many handshake messages have been handled, and the names that were sent for "agent -1"
      while nobody had registered here and that nothing has caught up with since. */
  datatype Link = Link(
    token: int, agentID: int, healthCheck: bool, disconnectCall: bool,
    down: seq<Down>, up: seq<Up>,
    agent: int, watch: set<Name>, recording: seq<bool>,
    responses: seq<bool>, applied: seq<ListKind>, stage: nat, strays: set<Name>)

  /** An entry of the Redis hash AgentList. */
  datatype Record = Record(number: int, isOn: bool, isRecording: bool)

  /** What a ChangeAgentState_* call writes into the record it has read. */
  datatype Change = SetOn(value: bool) | StopRecording | StartRecording

  datatype System = System(
    agents: map<int, Record>,
    lists: map<int, set<Name>>,
    listed: seq<SockId>,
    links: map<SockId, Link>,
    stale: seq<(int, Record)>)

  datatype Event =
    | Accept(s: SockId, token: int)
    | Drop(s: SockId)
    | ServerHandles(s: SockId)
    | AgentHandles(s: SockId)
    | WebCommand(token: int, add: bool, name: Name)
    | ReadState(token: int, change: Change)
    | WriteState(k: nat)
    | HeartbeatStart
    | HeartbeatEnd

  const DEFAULT_PROCESSES: set<Name> := {"Melon", "KakaoTalk", "notepad"}
  const NO_TOKEN := -1

  // ---------------------------------------------------------------------------------------
  // Redis

  /** Members of "<agentID>:ProcessList"; a missing key is an empty set. */
  function Members(lists: map<int, set<Name>>, agentID: int): set<Name>
  {
    if agentID in lists then lists[agentID] else {}
  }

  function GetAgentID(agents: map<int, Record>, token: int): int
  {
    if token in agents then agents[token].number else -1
  }

  function InitAgent(agents: map<int, Record>, token: int): map<int, Record>
  {
    if token in agents then agents[token := agents[token].(isOn := true)]
    else agents[token := Record(|agents|, true, false)]
  }

  /** The process list an agent is sent: an empty one is first filled with the defaults. */
  function Filled(lists: map<int, set<Name>>, agentID: int): map<int, set<Name>>
  {
    if Members(lists, agentID) == {} then lists[agentID := DEFAULT_PROCESSES] else lists
  }

  function Changed(r: Record, c: Change): Record
  {
    match c
    case SetOn(v) => r.(isOn := v)
    case StopRecording => r.(isRecording := false)
    case StartRecording => r.(isRecording := true)
  }

  // ---------------------------------------------------------------------------------------
  // Steps

  /** The first listed socket with this token, as an index of `listed`; `|listed|` if none. */
  function Find(sys: System, token: int, i: nat): (k: nat)
    requires i <= |sys.listed|
    ensures i <= k <= |sys.listed|
    ensures k < |sys.listed| ==> HasToken(sys, k, token)
    ensures forall j :: i <= j < k ==> !HasToken(sys, j, token)
    decreases |sys.listed| - i
  {
    if i < |sys.listed| && !HasToken(sys, i, token) then Find(sys, token, i + 1) else i
  }

  predicate HasToken(sys: System, j: nat, token: int)
    requires j < |sys.listed|
  {
    sys.listed[j] in sys.links && sys.links[sys.listed[j]].token == token
  }

  function Send(l: Link, m: Down): Link { l.(down := l.down + [m]) }

  function Reply(l: Link, m: Up): Link { l.(up := l.up + [m]) }

  function Put(sys: System, s: SockId, l: Link): System { sys.(links := sys.links[s := l]) }

  /** AgentSocket::PacketHandling on the oldest message of socket `s`. */
  function ServerStep(sys: System, s: SockId): System
    requires s in sys.links && sys.links[s].up != []
  {
    var m, l := sys.links[s].up[0], sys.links[s].(up := sys.links[s].up[1..]);
    match m
    case AgentIDRequest(token) =>
      if Find(sys, token, 0) < |sys.listed| then
        Put(sys, s, Send(l, AgentIDResponse(-1, true)).(stage := l.stage + 1))
      else
        var agents := InitAgent(sys.agents, token);
        var id := GetAgentID(agents, token);
        Put(sys.(agents := agents), s,
            Send(l, AgentIDResponse(id, false)).(token := token, agentID := id, stage := l.stage + 1))
    case ProcessListRequest =>
      var lists := Filled(sys.lists, l.agentID);
      Put(sys.(lists := lists), s,
          Send(l, ProcessListResponse(Members(lists, l.agentID))).(
            stage := l.stage + 1, strays := l.strays - Members(lists, l.agentID)))
    case CounterListRequest(isMachine) =>
      Put(sys, s, Send(l, CounterListResponse(isMachine)).(stage := l.stage + 1))
    case AgentReady =>
      var agents := if l.token in sys.agents
                    then sys.agents[l.token := sys.agents[l.token].(isRecording := true)] else sys.agents;
      Put(sys.(agents := agents), s,
          Send(Send(l, StartRecord(true)), StartRecord(false)).(stage := l.stage + 1))
    case RecordResponse(isMachine) => Put(sys, s, l.(responses := l.responses + [isMachine]))
    case HealthAck => Put(sys, s, l.(healthCheck := true))
  }

  /** An update that nobody interrupts changes the flag it is about, of this record, and nothing else. */
  lemma UpdateUninterrupted(sys: System, token: int, change: Change)
    requires token in sys.agents
    ensures var now := Step(Step(sys, ReadState(token, change)), WriteState(|sys.stale|));
            && now.stale == sys.stale && now.agents.Keys == sys.agents.Keys
            && (forall t :: t in sys.agents && t != token ==> now.agents[t] == sys.agents[t])
            && var was, r := sys.agents[token], now.agents[token];
            && r.number == was.number
            && r.isOn == (if change.SetOn? then change.value else was.isOn)
            && r.isRecording == (if change.SetOn? then was.isRecording else change.StartRecording?)
  {
    var read := Step(sys, ReadState(token, change));
    assert read.stale[|sys.stale|] == (token, Changed(sys.agents[token], change));
    assert read.stale[..|sys.stale|] + read.stale[|sys.stale| + 1..] == sys.stale;
  }

  /** Handling a packet changes one link. */
  lemma OneLinkChanges(sys: System, s: SockId)
    requires s in sys.links && sys.links[s].up != []
    ensures var now := ServerStep(sys, s);
            && now.listed == sys.listed && now.stale == sys.stale && s in now.links
            && now.links == sys.links[s := now.links[s]]
  {
    hide Find, InitAgent, GetAgentID, Filled, Members;
  }

  /** AgentClientSocket::PacketHandling on the oldest message to the agent of socket `s`. */
  function AgentStep(l0: Link): Link
    requires l0.down != []
  {
    var m, l := l0.down[0], l0.(down := l0.down[1..]);
    match m
    case AgentIDResponse(id, alreadyRunning) =>
      if alreadyRunning then l.(stage := l.stage + 1)
      else Reply(l, ProcessListRequest).(stage := l.stage + 1)
    case ProcessListResponse(names) =>
      Reply(l, CounterListRequest(false)).(watch := l.watch + names, applied := l.applied + [Processes],
                                           stage := l.stage + 1)
    case CounterListResponse(isMachine) =>
      if !isMachine then
        Reply(l, CounterListRequest(true)).(applied := l.applied + [ProcessCounters], stage := l.stage + 1)
      else
        Reply(l, AgentReady).(applied := l.applied + [MachineCounters], stage := l.stage + 1)
    case StartRecord(isMachine) =>
      Reply(l, RecordResponse(isMachine)).(recording := l.recording + [isMachine])
    case AddName(name) => l.(watch := l.watch + {name})
    case DeleteName(name) => l.(watch := l.watch - {name})
    case HealthCheck => Reply(l, HealthAck)
  }

  /** WebCommandSocket::PacketHandling of a ProcessCommandRequest. */
  function WebStep(sys: System, token: int, add: bool, name: Name): System
  {
    var id := GetAgentID(sys.agents, token);
    var had := Members(sys.lists, id);
    if add == (name in had) then sys
    else
      var now := sys.(lists := sys.lists[id := if add then had + {name} else had - {name}]);
      var k := Find(sys, token, 0);
      if k == |sys.listed| then now
      else
        Put(now, sys.listed[k], Told(sys.links[sys.listed[k]], add, name))
  }

  /** The agent of a link is told of a change of its list. */
  function Told(l: Link, add: bool, name: Name): Link
  {
    Send(l, if add then AddName(name) else DeleteName(name)).(
      strays := if add && l.token == NO_TOKEN then l.strays + {name} else l.strays - {name})
  }

  function Fresh(token: int): Link
  {
    Link(NO_TOKEN, -1, true, false, [], [AgentIDRequest(token)], token, {}, [], [], [], 0, {})
  }

  /** One step. An event that cannot happen changes nothing. */
  function Step(sys: System, e: Event): System
  {
    match e
    case Accept(s, token) =>
      if s in sys.listed then sys
      else sys.(listed := sys.listed + [s], links := sys.links[s := Fresh(token)])
    case Drop(s) =>
      sys.(listed := Without(sys.listed, s))
    case ServerHandles(s) =>
      if s in sys.listed && s in sys.links && sys.links[s].up != [] then ServerStep(sys, s) else sys
    case AgentHandles(s) =>
      if s in sys.listed && s in sys.links && sys.links[s].down != []
      then Put(sys, s, AgentStep(sys.links[s])) else sys
    case WebCommand(token, add, name) => WebStep(sys, token, add, name)
    case ReadState(token, change) =>
      if token in sys.agents then sys.(stale := sys.stale + [(token, Changed(sys.agents[token], change))]) else sys
    case WriteState(k) =>
      if k < |sys.stale|
      then sys.(agents := sys.agents[sys.stale[k].0 := sys.stale[k].1], stale := sys.stale[..k] + sys.stale[k + 1..])
      else sys
    case HeartbeatStart =>
      sys.(links := map s | s in sys.links :: if s in sys.listed then Asked(sys.links[s]) else sys.links[s])
    case HeartbeatEnd =>
      sys.(links := map s | s in sys.links :: if s in sys.listed then Judged(sys.links[s]) else sys.links[s])
  }

  /** First phase of the heartbeat for one socket. */
  function Asked(l: Link): Link { Send(l, HealthCheck).(healthCheck := false) }

  /** Second phase: a socket that was not heard of is disconnected. */
  function Judged(l: Link): Link { if l.healthCheck then l else l.(disconnectCall := true) }

  function Without(listed: seq<SockId>, s: SockId): (r: seq<SockId>)
    ensures forall x :: x in r <==> x in listed && x != s
  {
    if listed == [] then []
    else if listed[0] == s then Without(listed[1..], s)
    else [listed[0]] + Without(listed[1..], s)
  }

  function Run(sys: System, events: seq<Event>): System
    decreases |events|
  {
    if events == [] then sys else Run(Step(sys, events[0]), events[1..])
  }

  // ---------------------------------------------------------------------------------------
  // The invariant

  ghost predicate IsTaken(agents: map<int, Record>, n: int)
  {
    exists t :: t in agents && agents[t].number == n
  }

  /** Agent numbers are exactly 0 .. n-1, one per token. */
  ghost predicate Numbered(agents: map<int, Record>)
  {
    && (forall t :: t in agents ==> 0 <= agents[t].number < |agents|)
    && (forall t, u :: t in agents && u in agents && agents[t].number == agents[u].number ==> t == u)
    && (forall n :: 0 <= n < |agents| ==> IsTaken(agents, n))
  }

  /** Effect of one message on the watched set. */
  function Effect(watch: set<Name>, m: Down): set<Name>
  {
    match m
    case ProcessListResponse(names) => watch + names
    case AddName(name) => watch + {name}
    case DeleteName(name) => watch - {name}
    case _ => watch
  }

  /** What the watched set becomes once everything on its way has arrived. */
  function Arrived(watch: set<Name>, down: seq<Down>): set<Name>
    decreases |down|
  {
    if down == [] then watch else Arrived(Effect(watch, down[0]), down[1..])
  }

  predicate UpHandshake(m: Up) { !m.HealthAck? && !m.RecordResponse? }

  predicate DownHandshake(m: Down) { m.AgentIDResponse? || m.ProcessListResponse? || m.CounterListResponse? }

  /** The handshake messages on their way to the server, and to the agent. */
  function UpHandshakes(up: seq<Up>): seq<Up>
  {
    if up == [] then []
    else (if UpHandshake(up[0]) then [up[0]] else []) + UpHandshakes(up[1..])
  }

  function DownHandshakes(down: seq<Down>): seq<Down>
  {
    if down == [] then []
    else (if DownHandshake(down[0]) then [down[0]] else []) + DownHandshakes(down[1..])
  }

  /** Lists the agent has taken over before the handshake message with number `stage` is handled. */
  function ListsAt(stage: nat): seq<ListKind>
  {
    if stage <= 3 then [] else if stage <= 5 then [Processes]
    else if stage <= 7 then [Processes, ProcessCounters] else [Processes, ProcessCounters, MachineCounters]
  }

  /** The handshake messages that are in transit before number `stage` is handled: the even ones on
      the way up, the odd ones on the way down. The answer to number 8 is the start of recording. */
  predicate InTransit(token: int, agentID: int, stage: nat, up: seq<Up>, down: seq<Down>)
  {
    if token == NO_TOKEN then
      match stage
      case 0 => |up| == 1 && up[0].AgentIDRequest? && down == []
      case 1 => up == [] && down == [AgentIDResponse(-1, true)]
      case _ => stage == 2 && up == [] && down == []
    else
      match stage
      case 1 => up == [] && down == [AgentIDResponse(agentID, false)]
      case 2 => up == [ProcessListRequest] && down == []
      case 3 => up == [] && |down| == 1 && down[0].ProcessListResponse?
      case 4 => up == [CounterListRequest(false)] && down == []
      case 5 => up == [] && down == [CounterListResponse(false)]
      case 6 => up == [CounterListRequest(true)] && down == []
      case 7 => up == [] && down == [CounterListResponse(true)]
      case 8 => up == [AgentReady] && down == []
      case _ => stage == 9 && up == [] && down == []
  }

  predicate RecordsOnlyAtTheEnd(stage: nat, down: seq<Down>)
  {
    stage < 9 ==> forall i :: 0 <= i < |down| ==> !down[i].StartRecord?
  }

  /** Lockstep: exactly the due handshake message is in transit, the agent has taken over the lists
      in order, and it is told to record only when the handshake is over. */
  predicate Lockstep(l: Link)
  {
    && l.applied == ListsAt(l.stage)
    && InTransit(l.token, l.agentID, l.stage, UpHandshakes(l.up), DownHandshakes(l.down))
    && RecordsOnlyAtTheEnd(l.stage, l.down)
  }

  /** Replica convergence, in general: until the list is sent, what the agent will watch is part of
      the Redis set; from then on it is the Redis set. Stray names come on top. */
  predicate Converges(l: Link, lists: map<int, set<Name>>)
  {
    var will := Arrived(l.watch, l.down);
    if l.token == NO_TOKEN then will == l.strays
    else if l.stage <= 2 then l.strays <= will <= Members(lists, l.agentID) + l.strays
    else will == Members(lists, l.agentID) + l.strays && l.strays !! Members(lists, l.agentID)
  }

  predicate LinkOk(l: Link, agents: map<int, Record>, lists: map<int, set<Name>>)
  {
    && (if l.token == NO_TOKEN then l.agentID == -1
        else l.token in agents && l.agentID == agents[l.token].number)
    && Lockstep(l)
    && Converges(l, lists)
  }

  ghost predicate Inv(sys: System)
  {
    && Numbered(sys.agents)
    && NO_TOKEN !in sys.agents
    && (forall k :: 0 <= k < |sys.stale| ==>
          sys.stale[k].0 in sys.agents && sys.stale[k].1.number == sys.agents[sys.stale[k].0].number)
    && (forall s :: s in sys.listed ==> s in sys.links)
    && (forall s :: s in sys.listed ==> LinkOk(sys.links[s], sys.agents, sys.lists))
    && (forall s, r :: s in sys.listed && r in sys.listed && s != r && sys.links[s].token == sys.links[r].token
                       ==> sys.links[s].token == NO_TOKEN)
  }

  /** A system in which nobody is connected yet; Redis may hold what earlier runs left. */
  ghost predicate Initial(sys: System)
  {
    sys.listed == [] && sys.links == map[] && sys.stale == [] && Numbered(sys.agents) && NO_TOKEN !in sys.agents
  }

  lemma ListedHasLink(sys: System)
    requires Inv(sys)
    ensures forall s :: s in sys.listed ==> s in sys.links
  {
  }

  // ---------------------------------------------------------------------------------------
  // Channels

  lemma {:induction false} ArrivedSnoc(watch: set<Name>, down: seq<Down>, m: Down)
    ensures Arrived(watch, down + [m]) == Effect(Arrived(watch, down), m)
    decreases |down|
  {
    if down == [] {
      assert down + [m] == [m] && [m][1..] == [];
      assert Arrived(watch, [m]) == Arrived(Effect(watch, m), []);
    } else {
      assert (down + [m])[0] == down[0] && (down + [m])[1..] == down[1..] + [m];
      ArrivedSnoc(Effect(watch, down[0]), down[1..], m);
    }
  }

  lemma {:induction false} UpSnoc(up: seq<Up>, m: Up)
    ensures UpHandshakes(up + [m]) == UpHandshakes(up) + if UpHandshake(m) then [m] else []
    decreases |up|
  {
    if up == [] {
      assert up + [m] == [m] && [m][1..] == [];
      assert UpHandshakes([]) == [];
    } else {
      assert (up + [m])[0] == up[0] && (up + [m])[1..] == up[1..] + [m];
      UpSnoc(up[1..], m);
      var h := if UpHandshake(up[0]) then [up[0]] else [];
      var k := if UpHandshake(m) then [m] else [];
      assert h + (UpHandshakes(up[1..]) + k) == h + UpHandshakes(up[1..]) + k;
    }
  }

  lemma {:induction false} DownSnoc(down: seq<Down>, m: Down)
    ensures DownHandshakes(down + [m]) == DownHandshakes(down) + if DownHandshake(m) then [m] else []
    decreases |down|
  {
    if down == [] {
      assert down + [m] == [m] && [m][1..] == [];
      assert DownHandshakes([]) == [];
    } else {
      assert (down + [m])[0] == down[0] && (down + [m])[1..] == down[1..] + [m];
      DownSnoc(down[1..], m);
      var h := if DownHandshake(down[0]) then [down[0]] else [];
      var k := if DownHandshake(m) then [m] else [];
      assert h + (DownHandshakes(down[1..]) + k) == h + DownHandshakes(down[1..]) + k;
    }
  }

  // ---------------------------------------------------------------------------------------
  // Preservation

  /** Sending anything but a handshake message keeps a link's lockstep. */
  lemma SendKeepsLockstep(l: Link, m: Down)
    requires Lockstep(l) && !DownHandshake(m) && (m.StartRecord? ==> l.stage == 9)
    ensures Lockstep(Send(l, m))
    ensures Arrived(l.watch, Send(l, m).down) == Effect(Arrived(l.watch, l.down), m)
  {
    DownSnoc(l.down, m);
    ArrivedSnoc(l.watch, l.down, m);
    assert DownHandshakes(l.down) + [] == DownHandshakes(l.down);
  }

  /** The agent's own step: what it will watch does not change, and it stays in lockstep. */
  lemma AgentStepOk(l: Link, agents: map<int, Record>, lists: map<int, set<Name>>)
    requires LinkOk(l, agents, lists) && l.down != []
    ensures LinkOk(AgentStep(l), agents, lists)
  {
    hide UpHandshakes, DownHandshakes, Lockstep;
    if DownHandshake(l.down[0]) {
      AgentShakes(l);
    } else {
      AgentSideStep(l);
    }
    assert Arrived(l.watch, l.down) == Arrived(Effect(l.watch, l.down[0]), l.down[1..]);
    AgentStepArrives(l);
  }

  /** A message that arrives was counted when it was sent. */
  lemma AgentStepArrives(l: Link)
    requires l.down != []
    ensures var l' := AgentStep(l);
            l'.token == l.token && l'.agentID == l.agentID && Arrived(l'.watch, l'.down) == Arrived(l.watch, l.down)
  {
  }

  lemma AgentSideStep(l: Link)
    requires Lockstep(l) && l.down != [] && !DownHandshake(l.down[0])
    ensures Lockstep(AgentStep(l)) && AgentStep(l).stage == l.stage
  {
    hide UpHandshakes, DownHandshakes, InTransit, ListsAt;
    DownHead(l.down);
    var m := l.down[0];
    if m.StartRecord? {
      UpSnoc(l.up, RecordResponse(m.isMachine));
    } else if m.HealthCheck? {
      UpSnoc(l.up, HealthAck);
    }
    assert UpHandshakes(l.up) + [] == UpHandshakes(l.up);
  }

  lemma AgentShakes(l: Link)
    requires Lockstep(l) && l.down != [] && DownHandshake(l.down[0])
    ensures Lockstep(AgentStep(l)) && AgentStep(l).stage == l.stage + 1 && l.stage % 2 == 1
  {
    hide UpHandshakes, DownHandshakes, ListsAt;
    DownHead(l.down);
    assert UpHandshakes(l.up) == [] && DownHandshakes(l.down) == [l.down[0]];
    AppendLists();
    match l.down[0]
    case AgentIDResponse(id, refused) => if !refused { UpSnoc(l.up, ProcessListRequest); }
    case ProcessListResponse(names) => UpSnoc(l.up, CounterListRequest(false));
    case CounterListResponse(isMachine) => UpSnoc(l.up, if isMachine then AgentReady else CounterListRequest(true));
  }

  /** The agent never ends its handshake by itself. */
  lemma AgentKeepsStage(l: Link)
    requires Lockstep(l) && l.down != []
    ensures AgentStep(l).token == l.token && (AgentStep(l).stage == 9 ==> l.stage == 9)
  {
    hide Lockstep;
    if DownHandshake(l.down[0]) { AgentShakes(l); } else { AgentSideStep(l); }
  }

  lemma DownHead(down: seq<Down>)
    requires down != []
    ensures DownHandshake(down[0]) ==> DownHandshakes(down) == [down[0]] + DownHandshakes(down[1..])
    ensures !DownHandshake(down[0]) ==> DownHandshakes(down) == DownHandshakes(down[1..])
    ensures DownHandshake(down[0]) && |DownHandshakes(down)| == 1 ==>
              DownHandshakes(down)[0] == down[0] && DownHandshakes(down[1..]) == []
  {
  }

  lemma UpHead(up: seq<Up>)
    requires up != []
    ensures UpHandshake(up[0]) ==> UpHandshakes(up) == [up[0]] + UpHandshakes(up[1..])
    ensures !UpHandshake(up[0]) ==> UpHandshakes(up) == UpHandshakes(up[1..])
    ensures UpHandshake(up[0]) && |UpHandshakes(up)| == 1 ==>
              UpHandshakes(up)[0] == up[0] && UpHandshakes(up[1..]) == []
  {
  }

  lemma AppendLists()
    ensures ListsAt(1) == ListsAt(2) && ListsAt(3) + [Processes] == ListsAt(4)
    ensures ListsAt(5) + [ProcessCounters] == ListsAt(6)
    ensures ListsAt(7) + [MachineCounters] == ListsAt(8)
  {
  }

  /** Records may be rewritten and added, but a token keeps its number. */
  ghost predicate KeepsNumbers(agents: map<int, Record>, agents': map<int, Record>)
  {
    forall t :: t in agents ==> t in agents' && agents'[t].number == agents[t].number
  }

  /** What the server does for one connection leaves the others alone. */
  lemma OthersOk(sys: System, s: SockId, agents: map<int, Record>, id: int, names: set<Name>)
    requires Inv(sys) && s in sys.listed && KeepsNumbers(sys.agents, agents)
    requires id == sys.links[s].agentID && sys.links[s].token != NO_TOKEN
    ensures forall r :: r in sys.listed && r != s ==> LinkOk(sys.links[r], agents, sys.lists[id := names])
  {
    hide Lockstep;
    forall r | r in sys.listed && r != s
      ensures LinkOk(sys.links[r], agents, sys.lists[id := names])
    {
      var l := sys.links[r];
      assert LinkOk(l, sys.agents, sys.lists) && LinkOk(sys.links[s], sys.agents, sys.lists);
      if l.token != NO_TOKEN {
        assert l.token != sys.links[s].token;
        assert l.agentID != id;
      }
    }
  }

  lemma RewriteNumbered(agents: map<int, Record>, token: int, r: Record)
    requires Numbered(agents) && token in agents && r.number == agents[token].number
    ensures Numbered(agents[token := r]) && KeepsNumbers(agents, agents[token := r])
  {
    var agents' := agents[token := r];
    assert agents'.Keys == agents.Keys;
    forall n | 0 <= n < |agents'| ensures IsTaken(agents', n) {
      assert IsTaken(agents, n);
      var t :| t in agents && agents[t].number == n;
      assert t in agents' && agents'[t].number == n;
    }
  }

  /** A token that is new gets the next number; a known one keeps its own. */
  lemma InitNumbered(agents: map<int, Record>, token: int)
    requires Numbered(agents)
    ensures Numbered(InitAgent(agents, token)) && KeepsNumbers(agents, InitAgent(agents, token))
  {
    if token in agents {
      RewriteNumbered(agents, token, agents[token].(isOn := true));
    } else {
      var agents' := InitAgent(agents, token);
      assert agents'.Keys == agents.Keys + {token} && |agents'| == |agents| + 1;
      forall n | 0 <= n < |agents'| ensures IsTaken(agents', n) {
        if n == |agents| {
          assert token in agents' && agents'[token].number == n;
        } else {
          assert IsTaken(agents, n);
          var t :| t in agents && agents[t].number == n;
          assert t in agents' && agents'[t].number == n;
        }
      }
    }
  }

  /** Redis may gain and rewrite records as long as the numbering stands. */
  lemma RenewKeepsInv(sys: System, agents: map<int, Record>)
    requires Inv(sys) && Numbered(agents) && KeepsNumbers(sys.agents, agents) && NO_TOKEN !in agents
    ensures Inv(sys.(agents := agents))
  {
    hide Lockstep, Converges, Numbered;
    forall s | s in sys.listed ensures LinkOk(sys.links[s], agents, sys.lists) {
      assert LinkOk(sys.links[s], sys.agents, sys.lists);
    }
    forall k | 0 <= k < |sys.stale|
      ensures sys.stale[k].0 in agents && sys.stale[k].1.number == agents[sys.stale[k].0].number
    {
      var token: int := sys.stale[k].0;
      assert token in sys.agents;
      assert token in agents && agents[token].number == sys.agents[token].number;
    }
  }

  /** A link of a listed socket is replaced by one that is in order and claims no foreign token. */
  lemma PutKeepsInv(sys: System, s: SockId, l: Link)
    requires Inv(sys) && s in sys.listed && LinkOk(l, sys.agents, sys.lists)
    requires l.token == sys.links[s].token || forall r :: r in sys.listed && r != s ==> sys.links[r].token != l.token
    ensures Inv(Put(sys, s, l))
  {
    hide LinkOk;
  }

  /** The server answers the due handshake message by the next one. */
  lemma AnswerKeepsLockstep(l: Link, a: Down, token: int, id: int)
    requires Lockstep(l) && l.up != [] && UpHandshake(l.up[0]) && DownHandshake(a)
    requires l.stage < 8 && l.stage % 2 == 0 && InTransit(token, id, l.stage + 1, [], [a])
    ensures var l' := Send(l.(up := l.up[1..]), a).(token := token, agentID := id, stage := l.stage + 1);
            Lockstep(l') && Arrived(l'.watch, l'.down) == Effect(Arrived(l.watch, l.down), a)
  {
    hide UpHandshakes, DownHandshakes, ListsAt, Arrived;
    UpHead(l.up);
    DownSnoc(l.down, a);
    ArrivedSnoc(l.watch, l.down, a);
    assert ListsAt(l.stage + 1) == ListsAt(l.stage) by { SameLists(l.stage); }
    assert |UpHandshakes(l.up)| == 1 && DownHandshakes(l.down) == [];
    assert DownHandshakes(l.down + [a]) == [a];
  }

  lemma SameLists(stage: nat)
    requires stage % 2 == 0
    ensures ListsAt(stage + 1) == ListsAt(stage)
  {
  }

  /** The stage and the sender are known from the message at the head of the channel. */
  lemma DueAtServer(l: Link)
    requires Lockstep(l) && l.up != []
    ensures l.up[0].AgentIDRequest? ==> l.token == NO_TOKEN && l.stage == 0
    ensures l.up[0].ProcessListRequest? ==> l.token != NO_TOKEN && l.stage == 2
    ensures l.up[0].CounterListRequest? ==> l.token != NO_TOKEN && l.stage == if l.up[0].isMachine then 6 else 4
    ensures l.up[0].AgentReady? ==> l.token != NO_TOKEN && l.stage == 8
  {
    hide UpHandshakes, DownHandshakes;
    UpHead(l.up);
  }

  /** AgentIDRequest, refused: the token is in use (token -1 always is, by the asking socket). */
  lemma RefusalKeepsInv(sys: System, s: SockId)
    requires Inv(sys) && s in sys.listed && sys.links[s].up != [] && sys.links[s].up[0].AgentIDRequest?
    requires Find(sys, sys.links[s].up[0].token, 0) < |sys.listed|
    ensures Inv(ServerStep(sys, s))
  {
    hide Numbered, Lockstep, InTransit;
    var l, a := sys.links[s], AgentIDResponse(-1, true);
    assert LinkOk(l, sys.agents, sys.lists);
    DueAtServer(l);
    assert InTransit(NO_TOKEN, -1, 1, [], [a]) by { RefusalIsDue(); }
    AnswerKeepsLockstep(l, a, NO_TOKEN, -1);
    PutKeepsInv(sys, s, Send(l.(up := l.up[1..]), a).(stage := 1));
  }

  lemma RefusalIsDue()
    ensures InTransit(NO_TOKEN, -1, 1, [], [AgentIDResponse(-1, true)])
  {
  }

  /** AgentIDRequest, granted. */
  lemma GrantKeepsInv(sys: System, s: SockId)
    requires Inv(sys) && s in sys.listed && sys.links[s].up != [] && sys.links[s].up[0].AgentIDRequest?
    requires Find(sys, sys.links[s].up[0].token, 0) == |sys.listed|
    ensures Inv(ServerStep(sys, s))
  {
    hide Numbered, Lockstep, InTransit, Find, Arrived;
    var l, token := sys.links[s], sys.links[s].up[0].token;
    assert LinkOk(l, sys.agents, sys.lists);
    DueAtServer(l);
    NotFound(sys, token);
    assert token != NO_TOKEN;
    var agents := InitAgent(sys.agents, token);
    var id := agents[token].number;
    InitNumbered(sys.agents, token);
    RenewKeepsInv(sys, agents);
    var l1 := Granted(l, token, id);
    PutKeepsInv(sys.(agents := agents), s, l1);
  }

  lemma Granted(l: Link, token: int, id: int) returns (l1: Link)
    requires Lockstep(l) && l.up != [] && l.up[0].AgentIDRequest? && token != NO_TOKEN
    ensures l1 == Send(l.(up := l.up[1..]), AgentIDResponse(id, false)).(
                    token := token, agentID := id, stage := l.stage + 1)
    ensures Lockstep(l1) && l1.stage == 1 && Arrived(l1.watch, l1.down) == Arrived(l.watch, l.down)
  {
    hide Lockstep;
    DueAtServer(l);
    AnswerKeepsLockstep(l, AgentIDResponse(id, false), token, id);
    l1 := Send(l.(up := l.up[1..]), AgentIDResponse(id, false)).(token := token, agentID := id, stage := 1);
  }

  lemma NotFound(sys: System, token: int)
    requires Find(sys, token, 0) == |sys.listed| && forall s :: s in sys.listed ==> s in sys.links
    ensures forall s :: s in sys.listed ==> sys.links[s].token != token
  {
    forall s | s in sys.listed ensures sys.links[s].token != token {
      var j :| 0 <= j < |sys.listed| && sys.listed[j] == s;
      assert !HasToken(sys, j, token);
    }
  }

  /** ProcessListRequest: from here on the agent's list is the Redis set. */
  lemma ListRequestKeepsInv(sys: System, s: SockId)
    requires Inv(sys) && s in sys.listed && sys.links[s].up != [] && sys.links[s].up[0].ProcessListRequest?
    ensures Inv(ServerStep(sys, s))
  {
    hide Numbered, Lockstep;
    var l := sys.links[s];
    assert LinkOk(l, sys.agents, sys.lists);
    DueAtServer(l);
    var lists := Filled(sys.lists, l.agentID);
    var names := Members(lists, l.agentID);
    var a := ProcessListResponse(names);
    OthersOk(sys, s, sys.agents, l.agentID, names);
    AnswerKeepsLockstep(l, a, l.token, l.agentID);
    var answered := Send(l.(up := l.up[1..]), a).(stage := 3);
    SameLockstep(answered, answered.(strays := l.strays - names));
    assert LinkOk(answered.(strays := l.strays - names), sys.agents, lists);
  }

  /** CounterListRequest and AgentReady, and what is not part of the handshake. */
  lemma OtherRequestsKeepInv(sys: System, s: SockId)
    requires Inv(sys) && s in sys.listed && sys.links[s].up != []
    requires !sys.links[s].up[0].AgentIDRequest? && !sys.links[s].up[0].ProcessListRequest?
    ensures Inv(ServerStep(sys, s))
  {
    hide Numbered;
    var l := sys.links[s];
    var m, l1 := l.up[0], l.(up := l.up[1..]);
    assert LinkOk(l, sys.agents, sys.lists);
    DueAtServer(l);
    match m
    case CounterListRequest(isMachine) =>
      AnswerKeepsLockstep(l, CounterListResponse(isMachine), l.token, l.agentID);
      PutKeepsInv(sys, s, Send(l1, CounterListResponse(isMachine)).(stage := l.stage + 1));
    case AgentReady =>
      var r := sys.agents[l.token].(isRecording := true);
      RewriteNumbered(sys.agents, l.token, r);
      RenewKeepsInv(sys, sys.agents[l.token := r]);
      ReadyStartsRecording(l);
      PutKeepsInv(sys.(agents := sys.agents[l.token := r]), s,
                  Send(Send(l1.(stage := 9), StartRecord(true)), StartRecord(false)));
    case RecordResponse(isMachine) =>
      UpHead(l.up);
      PutKeepsInv(sys, s, l1.(responses := l1.responses + [isMachine]));
    case HealthAck =>
      UpHead(l.up);
      PutKeepsInv(sys, s, l1.(healthCheck := true));
  }

  lemma ReadyStartsRecording(l: Link)
    requires Lockstep(l) && l.up != [] && l.up[0] == AgentReady
    ensures var l' := Send(Send(l.(up := l.up[1..], stage := 9), StartRecord(true)), StartRecord(false));
            Lockstep(l') && Arrived(l'.watch, l'.down) == Arrived(l.watch, l.down)
  {
    UpHead(l.up);
    var l2 := l.(up := l.up[1..], stage := 9);
    assert Lockstep(l2);
    SendKeepsLockstep(l2, StartRecord(true));
    SendKeepsLockstep(Send(l2, StartRecord(true)), StartRecord(false));
  }

  lemma ServerStepKeepsInv(sys: System, s: SockId)
    requires Inv(sys) && s in sys.listed && sys.links[s].up != []
    ensures Inv(ServerStep(sys, s))
  {
    var m := sys.links[s].up[0];
    if m.AgentIDRequest? {
      if Find(sys, m.token, 0) < |sys.listed| { RefusalKeepsInv(sys, s); } else { GrantKeepsInv(sys, s); }
    } else if m.ProcessListRequest? {
      ListRequestKeepsInv(sys, s);
    } else {
      OtherRequestsKeepInv(sys, s);
    }
  }

  // ---------------------------------------------------------------------------------------
  // The other steps

  lemma WebKeepsInv(sys: System, token: int, add: bool, name: Name)
    requires Inv(sys)
    ensures Inv(WebStep(sys, token, add, name))
  {
    hide Lockstep;
    var id := GetAgentID(sys.agents, token);
    var had := Members(sys.lists, id);
    if add != (name in had) {
      var names := if add then had + {name} else had - {name};
      var k := Find(sys, token, 0);
      if k < |sys.listed| {
        WebReaches(sys, token, add, name, sys.listed[k]);
      } else {
        NotFound(sys, token);
        forall s | s in sys.listed ensures LinkOk(sys.links[s], sys.agents, sys.lists[id := names]) {
          var l := sys.links[s];
          assert LinkOk(l, sys.agents, sys.lists);
          assert l.token != NO_TOKEN ==> l.agentID != id;
        }
      }
    }
  }

  /** One link and the lists change together, and all links are in order under the new lists. */
  lemma PutWithListsKeepsInv(sys: System, lists: map<int, set<Name>>, s: SockId, l: Link)
    requires Inv(sys) && s in sys.listed && l.token == sys.links[s].token && LinkOk(l, sys.agents, lists)
    requires forall r :: r in sys.listed && r != s ==> LinkOk(sys.links[r], sys.agents, lists)
    ensures Inv(Put(sys.(lists := lists), s, l))
  {
    hide LinkOk, Numbered;
  }

  lemma WebReaches(sys: System, token: int, add: bool, name: Name, s: SockId)
    requires Inv(sys) && s in sys.listed && sys.links[s].token == token
    requires Find(sys, token, 0) < |sys.listed| && s == sys.listed[Find(sys, token, 0)]
    requires add != (name in Members(sys.lists, GetAgentID(sys.agents, token)))
    ensures Inv(WebStep(sys, token, add, name))
  {
    hide Numbered, Lockstep, Converges, Find;
    var id := GetAgentID(sys.agents, token);
    var had := Members(sys.lists, id);
    var names := if add then had + {name} else had - {name};
    var l := sys.links[s];
    assert LinkOk(l, sys.agents, sys.lists);
    ToldKeepsOrder(l, sys.lists, add, name);
    if token != NO_TOKEN {
      OthersOk(sys, s, sys.agents, id, names);
    } else {
      NobodysList(sys, names);
    }
    PutWithListsKeepsInv(sys, sys.lists[id := names], s, Told(l, add, name));
  }

  /** A change of the Redis list and the message about it, seen from the agent it is about. */
  lemma ToldKeepsOrder(l: Link, lists: map<int, set<Name>>, add: bool, name: Name)
    requires Lockstep(l) && Converges(l, lists)
    requires l.token == NO_TOKEN ==> l.agentID == -1
    requires add != (name in Members(lists, l.agentID))
    ensures var had := Members(lists, l.agentID);
            var names := if add then had + {name} else had - {name};
            Lockstep(Told(l, add, name)) && Converges(Told(l, add, name), lists[l.agentID := names])
  {
    hide Lockstep, Arrived;
    var m := if add then AddName(name) else DeleteName(name);
    SendKeepsLockstep(l, m);
    SameLockstep(Send(l, m), Told(l, add, name));
  }

  /** The list of "agent -1" is no registered agent's list. */
  lemma NobodysList(sys: System, names: set<Name>)
    requires Inv(sys)
    ensures forall r :: r in sys.listed ==> LinkOk(sys.links[r], sys.agents, sys.lists[-1 := names])
  {
    hide Lockstep;
    forall r | r in sys.listed ensures LinkOk(sys.links[r], sys.agents, sys.lists[-1 := names]) {
      assert LinkOk(sys.links[r], sys.agents, sys.lists);
    }
  }

  lemma HeartbeatKeepsInv(sys: System, e: Event)
    requires Inv(sys) && (e.HeartbeatStart? || e.HeartbeatEnd?)
    ensures Inv(Step(sys, e))
  {
    hide Numbered, Lockstep;
    var now := Step(sys, e);
    forall s | s in now.listed ensures LinkOk(now.links[s], now.agents, now.lists) {
      var l := sys.links[s];
      assert LinkOk(l, sys.agents, sys.lists);
      SendKeepsLockstep(l, HealthCheck);
      SameLockstep(Send(l, HealthCheck), Asked(l));
      SameLockstep(l, Judged(l));
    }
  }

  lemma SameLockstep(l: Link, l': Link)
    requires l' == l.(healthCheck := l'.healthCheck, disconnectCall := l'.disconnectCall, strays := l'.strays)
    ensures Lockstep(l) == Lockstep(l')
  {
  }

  lemma AcceptKeepsInv(sys: System, s: SockId, token: int)
    requires Inv(sys) && s !in sys.listed
    ensures Inv(Step(sys, Accept(s, token)))
  {
    hide Numbered;
    var now := Step(sys, Accept(s, token));
    var m := AgentIDRequest(token);
    assert UpHandshakes([m]) == [m] + UpHandshakes([m][1..]);
    assert LinkOk(Fresh(token), sys.agents, sys.lists);
    forall r | r in now.listed ensures LinkOk(now.links[r], now.agents, now.lists) {
      if r != s { assert LinkOk(sys.links[r], sys.agents, sys.lists); }
    }
  }

  lemma WriteStateKeepsInv(sys: System, k: nat)
    requires Inv(sys) && k < |sys.stale|
    ensures Inv(Step(sys, WriteState(k)))
  {
    hide LinkOk, Numbered;
    var (token, r) := sys.stale[k];
    RewriteNumbered(sys.agents, token, r);
    RenewKeepsInv(sys, sys.agents[token := r]);
  }

  lemma StepKeepsInv(sys: System, e: Event)
    requires Inv(sys)
    ensures Inv(Step(sys, e))
  {
    hide LinkOk, Numbered;
    match e
    case Accept(s, token) => if s !in sys.listed { AcceptKeepsInv(sys, s, token); }
    case Drop(s) =>
    case ServerHandles(s) => if s in sys.listed && sys.links[s].up != [] { ServerStepKeepsInv(sys, s); }
    case AgentHandles(s) =>
      if s in sys.listed && sys.links[s].down != [] {
        AgentStepOk(sys.links[s], sys.agents, sys.lists);
        AgentStepArrives(sys.links[s]);
        PutKeepsInv(sys, s, AgentStep(sys.links[s]));
      }
    case WebCommand(token, add, name) => WebKeepsInv(sys, token, add, name);
    case ReadState(token, change) =>
    case WriteState(k) => if k < |sys.stale| { WriteStateKeepsInv(sys, k); }
    case HeartbeatStart => HeartbeatKeepsInv(sys, e);
    case HeartbeatEnd => HeartbeatKeepsInv(sys, e);
  }

  // ---------------------------------------------------------------------------------------
  // Stray web commands

  /** A web command that reaches a socket on which nobody has registered: token -1 is what every
      socket carries until then, and "agent -1" has a Redis list like any other. */
  ghost predicate Stray(sys: System, token: int, add: bool, name: Name)
  {
    token == NO_TOKEN && add && name !in Members(sys.lists, -1)
    && exists s :: s in sys.listed && s in sys.links && sys.links[s].token == NO_TOKEN
  }

  ghost predicate NoStrays(sys: System)
  {
    forall s :: s in sys.listed ==> s in sys.links && sys.links[s].strays == {}
  }

  /** Stray names come from nowhere else: a step leaves the system without them if and only if it
      is not such a web command. */
  lemma StraysComeFromTheWeb(sys: System, e: Event)
    requires Inv(sys) && NoStrays(sys)
    ensures NoStrays(Step(sys, e)) <==> !(e.WebCommand? && Stray(sys, e.token, e.add, e.name))
  {
    hide LinkOk, Numbered;
    match e
    case WebCommand(token, add, name) =>
      var k := Find(sys, token, 0);
      if k == |sys.listed| {
        NotFound(sys, token);
      } else if add != (name in Members(sys.lists, GetAgentID(sys.agents, token))) {
        var s := sys.listed[k];
        var now := Step(sys, e);
        assert now.links[s] == Told(sys.links[s], add, name) && s in now.listed;
        if token == NO_TOKEN && add {
          assert name in now.links[s].strays;
        }
      }
    case ServerHandles(s) => if s in sys.listed && sys.links[s].up != [] { ServerStepStrays(sys, s); }
    case AgentHandles(s) =>
    case _ =>
  }

  lemma ServerStepStrays(sys: System, s: SockId)
    requires s in sys.listed && s in sys.links && sys.links[s].up != []
    ensures var now := ServerStep(sys, s);
            now.listed == sys.listed && s in now.links && now.links[s].strays <= sys.links[s].strays
            && forall r :: r in sys.links && r != s ==> r in now.links && now.links[r] == sys.links[r]
  {
    hide Find, InitAgent, GetAgentID, Filled, Members;
    OneLinkChanges(sys, s);
  }

  // ---------------------------------------------------------------------------------------
  // Whole runs

  lemma {:induction false} RunKeepsInv(sys: System, events: seq<Event>)
    requires Inv(sys)
    ensures Inv(Run(sys, events))
    decreases |events|
  {
    if events != [] {
      StepKeepsInv(sys, events[0]);
      RunKeepsInv(Step(sys, events[0]), events[1..]);
    }
  }

  /** Replica convergence over every run: whatever the interleaving of registrations, list
      requests, web commands, lost connections, record updates and heartbeats, what a registered
      agent will watch once its messages have arrived is, apart from stray names, part of the Redis
      set until its list is sent; from then on it is the Redis set exactly if no stray name is left. */
  lemma ReplicaConvergence(start: System, events: seq<Event>, s: SockId)
    requires Initial(start)
    requires var end := Run(start, events); s in end.listed && s in end.links && end.links[s].token != NO_TOKEN
    ensures var end := Run(start, events);
            var l, redis := end.links[s], Members(end.lists, end.links[s].agentID);
            && l.token in end.agents && l.agentID == end.agents[l.token].number
            && Arrived(l.watch, l.down) <= redis + l.strays
            && (l.stage >= 3 ==> (Arrived(l.watch, l.down) == redis <==> l.strays == {}))
            && (l.down == [] ==> Arrived(l.watch, l.down) == l.watch)
  {
    hide Lockstep;
    RunKeepsInv(start, events);
    assert LinkOk(Run(start, events).links[s], Run(start, events).agents, Run(start, events).lists);
  }

  /** No web command of the run is addressed to token -1. */
  predicate Addressed(events: seq<Event>)
  {
    forall i :: 0 <= i < |events| ==> events[i].WebCommand? ==> events[i].token != NO_TOKEN
  }

  /** With web commands for real tokens only, no stray name ever appears, so convergence is exact. */
  lemma {:induction false} AddressedRunsHaveNoStrays(sys: System, events: seq<Event>)
    requires Inv(sys) && NoStrays(sys) && Addressed(events)
    ensures NoStrays(Run(sys, events))
    decreases |events|
  {
    if events != [] {
      StepKeepsInv(sys, events[0]);
      StraysComeFromTheWeb(sys, events[0]);
      AddressedRunsHaveNoStrays(Step(sys, events[0]), events[1..]);
    }
  }

  /** Replica convergence without exceptions: in every run whose web commands are for real tokens, what
      a registered agent will watch is part of the Redis set until its list is sent, and from then on
      is the Redis set; with nothing on its way, it is what the agent watches. */
  lemma ConvergenceOfAddressedRuns(start: System, events: seq<Event>, s: SockId)
    requires Initial(start) && Addressed(events)
    requires var end := Run(start, events); s in end.listed && s in end.links && end.links[s].token != NO_TOKEN
    ensures var end := Run(start, events);
            var l, redis := end.links[s], Members(end.lists, end.links[s].agentID);
            && Arrived(l.watch, l.down) <= redis
            && (l.stage >= 3 ==> Arrived(l.watch, l.down) == redis)
            && (l.stage >= 3 && l.down == [] ==> l.watch == redis)
  {
    ReplicaConvergence(start, events, s);
    AddressedRunsHaveNoStrays(start, events);
  }

  /** Identity over every run: agent numbers stay exactly 0 .. n-1, a token never changes its
      number, no two listed sockets share a token, and token -1 is never registered; stale record
      writes may land at any time. */
  lemma IdentityOverRuns(start: System, events: seq<Event>, more: seq<Event>)
    requires Initial(start)
    ensures var mid := Run(start, events);
            var end := Run(mid, more);
            && Numbered(end.agents) && KeepsNumbers(mid.agents, end.agents) && NO_TOKEN !in end.agents
            && forall s, r :: s in end.listed && r in end.listed && s != r
                              && s in end.links && r in end.links && end.links[s].token == end.links[r].token
                              ==> end.links[s].token == NO_TOKEN
  {
    RunKeepsInv(start, events);
    RunKeepsInv(Run(start, events), more);
    RunKeepsNumbers(Run(start, events), more);
  }

  lemma {:induction false} RunKeepsNumbers(sys: System, events: seq<Event>)
    requires Inv(sys)
    ensures KeepsNumbers(sys.agents, Run(sys, events).agents)
    decreases |events|
  {
    if events != [] {
      StepKeepsInv(sys, events[0]);
      StepKeepsNumbers(sys, events[0]);
      RunKeepsNumbers(Step(sys, events[0]), events[1..]);
    }
  }

  lemma StepKeepsNumbers(sys: System, e: Event)
    requires Inv(sys)
    ensures KeepsNumbers(sys.agents, Step(sys, e).agents)
  {
    hide LinkOk, Numbered, Find;
    if e.WriteState? && e.k < |sys.stale| {
      var token: int := sys.stale[e.k].0;
      assert token in sys.agents && sys.stale[e.k].1.number == sys.agents[token].number;
    }
  }

  /** Handshake lockstep over every run: at most one handshake message of a connection is in
      transit, and an agent that is told to record has taken over the process, process counter and
      machine counter lists, in that order. */
  lemma HandshakeLockstep(start: System, events: seq<Event>, s: SockId)
    requires Initial(start)
    requires var end := Run(start, events); s in end.listed && s in end.links
    ensures var l := Run(start, events).links[s];
            && |UpHandshakes(l.up)| + |DownHandshakes(l.down)| <= 1
            && l.applied <= [Processes, ProcessCounters, MachineCounters]
            && ((exists i :: 0 <= i < |l.down| && l.down[i].StartRecord?)
                  ==> l.applied == [Processes, ProcessCounters, MachineCounters])
  {
    hide UpHandshakes, DownHandshakes;
    RunKeepsInv(start, events);
    assert LinkOk(Run(start, events).links[s], Run(start, events).agents, Run(start, events).lists);
  }

  /** Who may register: a token is granted if and only if no listed socket carries it, and then it has
      a number in Redis; otherwise Redis is left alone. Token -1 is always refused, because the asking
      socket itself carries it. */
  lemma GrantedExactly(sys: System, s: SockId)
    requires Inv(sys) && s in sys.listed && sys.links[s].up != [] && sys.links[s].up[0].AgentIDRequest?
    ensures var token, now := sys.links[s].up[0].token, Step(sys, ServerHandles(s));
            var free := forall r :: r in sys.listed ==> sys.links[r].token != token;
            && s in now.links && (token == NO_TOKEN ==> !free)
            && (if free then
                  token in now.agents && now.links[s].token == token
                  && now.links[s].down == sys.links[s].down + [AgentIDResponse(now.agents[token].number, false)]
                else
                  now.agents == sys.agents && now.links[s].token == NO_TOKEN
                  && now.links[s].down == sys.links[s].down + [AgentIDResponse(-1, true)])
  {
    hide Lockstep, Converges, Numbered;
    var token := sys.links[s].up[0].token;
    assert LinkOk(sys.links[s], sys.agents, sys.lists);
    DueAtServer(sys.links[s]);
    if Find(sys, token, 0) == |sys.listed| {
      NotFound(sys, token);
    } else {
      assert sys.links[sys.listed[Find(sys, token, 0)]].token == token;
    }
  }

  /** A run with a stray name: a command for "agent -1" arrives between the connection and the
      registration of agent 5, which then watches a process that is not in its list. */
  lemma StrayCommandDiverges()
    ensures var start := System(map[], map[0 := {"app"}], [], map[], []);
            var events := [Accept(0, 5), WebCommand(NO_TOKEN, true, "x"), ServerHandles(0), AgentHandles(0),
                           AgentHandles(0), ServerHandles(0), AgentHandles(0)];
            var end := Run(start, events);
            && Initial(start) && end.listed == [0] && 0 in end.links
            && end.links[0].down == [] && end.links[0].stage == 4
            && end.links[0].watch == {"app", "x"} && Members(end.lists, end.links[0].agentID) == {"app"}
  {
    hide Step;
    var s0 := System(map[], map[0 := {"app"}], [], map[], []);
    StrayThenGrant();
    StrayThenList();
    RunSeven(s0, Accept(0, 5), WebCommand(NO_TOKEN, true, "x"), ServerHandles(0), AgentHandles(0),
             AgentHandles(0), ServerHandles(0), AgentHandles(0));
  }

  /** The state in which the stray name and the answer to the registration are on their way. */
  function StrayOnItsWay(): System
  {
    System(map[5 := Record(0, true, false)], map[0 := {"app"}, -1 := {"x"}], [0],
           map[0 := Link(5, 0, true, false, [AddName("x"), AgentIDResponse(0, false)], [],
                         5, {}, [], [], [], 1, {"x"})], [])
  }

  lemma StrayThenGrant()
    ensures var s0 := System(map[], map[0 := {"app"}], [], map[], []);
            Step(Step(Step(s0, Accept(0, 5)), WebCommand(NO_TOKEN, true, "x")), ServerHandles(0)) == StrayOnItsWay()
  {
    var s0 := System(map[], map[0 := {"app"}], [], map[], []);
    var s1 := Step(s0, Accept(0, 5));
    assert s1 == System(map[], map[0 := {"app"}], [0], map[0 := Fresh(5)], []);
    var s2 := Step(s1, WebCommand(NO_TOKEN, true, "x"));
    assert s2 == System(map[], map[0 := {"app"}, -1 := {"x"}], [0], map[0 := Told(Fresh(5), true, "x")], []) by {
      assert HasToken(s1, 0, NO_TOKEN);
      var none: set<Name> := {};
      assert none + {"x"} == {"x"};
      assert Members(s1.lists, -1) == none;
    }
    StrayGranted(s2);
  }

  lemma StrayGranted(s2: System)
    requires s2 == System(map[], map[0 := {"app"}, -1 := {"x"}], [0], map[0 := Told(Fresh(5), true, "x")], [])
    ensures Step(s2, ServerHandles(0)) == StrayOnItsWay()
  {
    hide Find, InitAgent;
    var l := s2.links[0];
    assert l.up == [AgentIDRequest(5)] && l.up[1..] == [];
    assert Find(s2, 5, 0) == 1 by { NobodyHasToken(s2, 5); }
    assert InitAgent(s2.agents, 5) == map[5 := Record(0, true, false)] by { FirstAgent(5); }
    var l1 := Send(l.(up := []), AgentIDResponse(0, false)).(token := 5, agentID := 0, stage := 1);
    assert ServerStep(s2, 0) == Put(s2.(agents := map[5 := Record(0, true, false)]), 0, l1);
    assert l1.strays == {"x"};
    var down := [AddName("x"), AgentIDResponse(0, false)];
    assert l1 == Link(5, 0, true, false, down, [], 5, {}, [], [], [], 1, {"x"});
    assert s2.links[0 := l1] == map[0 := l1];
  }

  lemma FirstAgent(token: int)
    ensures InitAgent(map[], token) == map[token := Record(0, true, false)]
  {
  }

  lemma NobodyHasToken(sys: System, token: int)
    requires forall j :: 0 <= j < |sys.listed| ==> !HasToken(sys, j, token)
    ensures Find(sys, token, 0) == |sys.listed|
  {
  }

  lemma StrayThenList()
    ensures var s4 := Step(Step(StrayOnItsWay(), AgentHandles(0)), AgentHandles(0));
            var end := Step(Step(s4, ServerHandles(0)), AgentHandles(0));
            && end.listed == [0] && 0 in end.links && end.links[0].agentID == 0
            && end.links[0].down == [] && end.links[0].stage == 4
            && end.links[0].watch == {"app", "x"} && Members(end.lists, 0) == {"app"}
  {
    hide Step, ServerStep;
    var l := StrayOnItsWay().links[0];
    var l1 := AgentHandled(StrayOnItsWay());
    assert l1.down == [AgentIDResponse(0, false)] && l1.watch == {"x"};
    var l2 := AgentHandled(Put(StrayOnItsWay(), 0, l1));
    assert l2.down == [] && l2.up == [ProcessListRequest] && l2.watch == {"x"};
    var l3 := ListSent(Put(Put(StrayOnItsWay(), 0, l1), 0, l2));
    var l4 := AgentHandled(Put(Put(Put(StrayOnItsWay(), 0, l1), 0, l2), 0, l3));
    assert l4.watch == {"x"} + {"app"} == {"app", "x"};
  }

  lemma AgentHandled(sys: System) returns (l: Link)
    requires sys.listed == [0] && 0 in sys.links && sys.links[0].down != []
    ensures l == AgentStep(sys.links[0]) && Step(sys, AgentHandles(0)) == Put(sys, 0, l)
  {
    l := AgentStep(sys.links[0]);
  }

  lemma ListSent(sys: System) returns (l: Link)
    requires sys.listed == [0] && 0 in sys.links && sys.links[0].up == [ProcessListRequest]
    requires sys.links[0].agentID == 0 && Members(sys.lists, 0) == {"app"}
    ensures Step(sys, ServerHandles(0)) == Put(sys, 0, l)
    ensures l == Send(sys.links[0].(up := []), ProcessListResponse({"app"})).(
                   stage := sys.links[0].stage + 1, strays := sys.links[0].strays - {"app"})
  {
    var l0 := sys.links[0].(up := []);
    assert sys.links[0].up[1..] == [] && Filled(sys.lists, 0) == sys.lists;
    l := Send(l0, ProcessListResponse({"app"})).(stage := l0.stage + 1, strays := l0.strays - {"app"});
    assert sys.(lists := sys.lists) == sys;
  }

  lemma RunSeven(sys: System, a: Event, b: Event, c: Event, d: Event, e: Event, f: Event, g: Event)
    ensures Run(sys, [a, b, c, d, e, f, g])
            == Step(Step(Step(Step(Step(Step(Step(sys, a), b), c), d), e), f), g)
  {
    hide Step;
    RunHead(sys, a, [b, c, d, e, f, g]);
    var s := Step(sys, a);
    RunHead(s, b, [c, d, e, f, g]);
    s := Step(s, b);
    RunHead(s, c, [d, e, f, g]);
    s := Step(s, c);
    RunHead(s, d, [e, f, g]);
    s := Step(s, d);
    RunHead(s, e, [f, g]);
    s := Step(s, e);
    RunHead(s, f, [g]);
    s := Step(s, f);
    RunHead(s, g, []);
  }

  lemma RunHead(sys: System, e: Event, rest: seq<Event>)
    ensures Run(sys, [e] + rest) == Run(Step(sys, e), rest)
  {
    assert ([e] + rest)[1..] == rest;
  }
}
