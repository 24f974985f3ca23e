/** The disconnection of an agent on an I/O thread, call by call, beside the logic thread: two record
    updates, each a read and a write, and the removal from the list, in that order. The handlers that
    change a record are split in the same way: the packet is taken, the record read, the record
    written and the answer sent. Packets of a removed socket are still handled. */
module Disconnects {
  import opened Session
  import opened Records

  /** A record that was read at index `from` of the log, as it will be written. */
  datatype Pending = Pending(token: int, record: Record, from: nat)

  /** What the logic thread is doing: a registration, or else the start of a recording, for a socket. */
  datatype Logic =
    | Idle
    | Taken(s: SockId, token: int, registers: bool)
    | Fetched(s: SockId, token: int, registers: bool, read: Read, from: nat)

  /** The system; for each socket whose DisconnProcess runs, how many of its calls are done and what it
      has read; the logic thread; and all accesses to records so far. */
  datatype Tracked = Tracked(
    sys: System, calls: map<SockId, nat>, pend: map<SockId, Pending>, logic: Logic, log: seq<Access>)

  datatype Move =
    | Other(e: Event)
    | Call(s: SockId)
    | Begin(s: SockId)
    | Fetch
    | End
    | Late(s: SockId)

  /** The oldest packet of `s` is one that changes a record. A request for token -1 would be one only
      behind the removal of its socket; the token is the address of the host, and -1 is none. */
  predicate Splits(sys: System, s: SockId)
    requires s in sys.links
  {
    sys.links[s].up != [] &&
    match sys.links[s].up[0]
    case AgentReady => true
    case AgentIDRequest(token) => token != NO_TOKEN && Find(sys, token, 0) == |sys.listed|
    case _ => false
  }

  /** Steps of the others. The logic thread does one thing at a time, the steps of a DisconnProcess are
      calls, and a socket object is not used again. */
  predicate Allowed(t: Tracked, e: Event)
  {
    match e
    case Drop(_) => false
    case ReadState(_, _) => false
    case WriteState(_) => false
    case Accept(s, _) => s !in t.sys.links
    case ServerHandles(s) => t.logic.Idle? && (s in t.sys.links ==> !Splits(t.sys, s))
    case WebCommand(_, _, _) => t.logic.Idle?
    case _ => true
  }

  function Done(t: Tracked, s: SockId): nat { if s in t.calls then t.calls[s] else 0 }

  /** The token field of a socket: a registration sets it before it reads the record. */
  function Seen(t: Tracked, s: SockId): int
    requires s in t.sys.links
  {
    if !t.logic.Idle? && t.logic.s == s && t.logic.registers then t.logic.token else t.sys.links[s].token
  }

  /** The update that the call under way, or the next one, belongs to. */
  function CallChange(n: nat): Change { if n <= 1 then SetOn(false) else StopRecording }

  function ReadCall(t: Tracked, s: SockId, token: int, c: Change): Tracked
  {
    if token in t.sys.agents then
      t.(pend := t.pend[s := Pending(token, Changed(t.sys.agents[token], c), |t.log|)], log := t.log + [Load(token)])
    else t
  }

  function WriteCall(t: Tracked, s: SockId, c: Change): Tracked
  {
    if s in t.pend then
      var p := t.pend[s];
      t.(sys := t.sys.(agents := t.sys.agents[p.token := p.record]), pend := t.pend - {s},
         log := t.log + [Store(p.token, p.from, Edit(c))])
    else t
  }

  /** The next call of the DisconnProcess of `s`. */
  function CallStep(t: Tracked, s: SockId): Tracked
    requires s in t.sys.links
  {
    var n := Done(t, s);
    var next := t.(calls := t.calls[s := n + 1]);
    if n == 0 || n == 2 then ReadCall(next, s, Seen(t, s), CallChange(n))
    else if n == 1 || n == 3 then WriteCall(next, s, CallChange(n))
    else t.(sys := Step(t.sys, Drop(s)), calls := t.calls - {s})
  }

  function BeginStep(t: Tracked, s: SockId): Tracked
    requires s in t.sys.links && Splits(t.sys, s)
  {
    var m := t.sys.links[s].up[0];
    t.(logic := if m.AgentIDRequest? then Taken(s, m.token, true) else Taken(s, t.sys.links[s].token, false))
  }

  function FetchStep(t: Tracked): Tracked
    requires t.logic.Taken?
  {
    var h := t.logic;
    t.(logic := Fetched(h.s, h.token, h.registers, Look(t.sys.agents, h.token), |t.log|),
       log := t.log + [Load(h.token)])
  }

  function HandlerChange(registers: bool): Change { if registers then SetOn(true) else StartRecording }

  /** The write, from the record that was read, and the rest of the handler. */
  function EndStep(t: Tracked): Tracked
    requires t.logic.Fetched? && t.logic.s in t.sys.links && t.sys.links[t.logic.s].up != []
  {
    var h, agents := t.logic, t.sys.agents;
    var now := ServerStep(t.sys, h.s);
    match h.read
    case Found(r) =>
      var c := HandlerChange(h.registers);
      t.(sys := now.(agents := agents[h.token := Changed(r, c)]), logic := Idle,
         log := t.log + [Store(h.token, h.from, Edit(c))])
    case Nothing =>
      if h.registers then
        t.(sys := now.(agents := agents[h.token := Record(|agents|, true, false)]), logic := Idle,
           log := t.log + [Store(h.token, h.from, Create(|agents|))])
      else t.(sys := now.(agents := agents), logic := Idle)
  }

  function MoveStep(t: Tracked, m: Move): Tracked
  {
    match m
    case Other(e) => if Allowed(t, e) then t.(sys := Step(t.sys, e)) else t
    case Call(s) => if s in t.sys.listed && s in t.sys.links then CallStep(t, s) else t
    case Begin(s) => if t.logic.Idle? && s in t.sys.links && Splits(t.sys, s) then BeginStep(t, s) else t
    case Fetch => if t.logic.Taken? then FetchStep(t) else t
    case End =>
      if t.logic.Fetched? && t.logic.s in t.sys.links && t.sys.links[t.logic.s].up != [] then EndStep(t) else t
    case Late(s) =>
      if t.logic.Idle? && s !in t.sys.listed && s in t.sys.links && t.sys.links[s].up != [] && !Splits(t.sys, s)
      then t.(sys := Put(t.sys, s, t.sys.links[s].(up := t.sys.links[s].up[1..]))) else t
  }

  function Moves(t: Tracked, ms: seq<Move>): Tracked
    decreases |ms|
  {
    if ms == [] then t else Moves(MoveStep(t, ms[0]), ms[1..])
  }

  function Started(sys: System): Tracked { Tracked(sys, map[], map[], Idle, []) }

  // ---------------------------------------------------------------------------------------
  // The invariant

  /** The record says that the agent is there, and that it records if it was told to. */
  predicate Right(agents: map<int, Record>, l: Link)
  {
    l.token in agents && agents[l.token].isOn && (l.stage == 9 ==> agents[l.token].isRecording)
  }

  /** Registered, and not being disconnected. */
  predicate Live(t: Tracked, s: SockId)
  {
    s in t.sys.listed && s in t.sys.links && s !in t.calls && t.sys.links[s].token != NO_TOKEN
  }

  ghost predicate LiveRight(t: Tracked)
  {
    forall s :: Live(t, s) ==> Right(t.sys.agents, t.sys.links[s])
  }

  /** A record that was read and not written belongs to a socket between the two. */
  ghost predicate Calling(t: Tracked)
  {
    && (forall s :: s in t.calls ==> s in t.sys.listed && 1 <= t.calls[s] <= 4)
    && (forall s :: s in t.pend ==>
          && s in t.calls && s in t.sys.links && (t.calls[s] == 1 || t.calls[s] == 3)
          && var p := t.pend[s];
          p.token == Seen(t, s) != NO_TOKEN && p.token in t.sys.agents
          && p.record.number == t.sys.agents[p.token].number)
  }

  predicate ReadOk(agents: map<int, Record>, token: int, o: Read)
  {
    match o
    case Found(r) => token in agents && r.number == agents[token].number
    case Nothing => token !in agents
  }

  /** The handler under way: its packet is still the oldest, nobody else has the token that it gives out,
      and the record it has read is that of its token, unless a disconnection has written since. */
  ghost predicate Busy(t: Tracked)
  {
    t.logic.Idle? ||
    (var h, sys := t.logic, t.sys;
     && h.s in sys.links && sys.links[h.s].up != []
     && (if h.registers then
           sys.links[h.s].up[0] == AgentIDRequest(h.token) && h.token != NO_TOKEN
           && forall r :: r in sys.listed && r in sys.links ==> sys.links[r].token != h.token
         else sys.links[h.s].up[0] == AgentReady && sys.links[h.s].token == h.token)
     && (h.Fetched? ==> ReadOk(sys.agents, h.token, h.read)))
  }

  /** No disconnection writes the record of a live agent. */
  ghost predicate FreshRead(t: Tracked)
  {
    t.logic.Fetched? ==>
      forall s :: Live(t, s) && t.sys.links[s].token == t.logic.token
        ==> t.logic.read == Look(t.sys.agents, t.logic.token)
  }

  ghost predicate Orderly(t: Tracked)
  {
    Inv(t.sys) && Calling(t) && Busy(t) && LiveRight(t) && FreshRead(t)
  }

  // ---------------------------------------------------------------------------------------
  // Steps of the others

  /** What these steps leave as it is. */
  ghost predicate Quiet(sys: System, now: System)
  {
    && now.agents == sys.agents
    && (forall s :: s in sys.links ==>
          && s in now.links && now.links[s].token == sys.links[s].token
          && (now.links[s].stage == 9 && s in sys.listed ==> sys.links[s].stage == 9))
    && (forall s :: s in sys.listed ==> s in now.listed)
    && (forall s :: s in now.listed && s !in sys.listed ==>
          s !in sys.links && s in now.links && now.links[s].token == NO_TOKEN)
  }

  lemma AgentIsQuiet(sys: System, s: SockId)
    requires Inv(sys) && s in sys.listed && s in sys.links && sys.links[s].down != []
    ensures Quiet(sys, Put(sys, s, AgentStep(sys.links[s])))
  {
    hide Lockstep, Converges, Numbered, AgentStep;
    assert LinkOk(sys.links[s], sys.agents, sys.lists);
    AgentKeepsStage(sys.links[s]);
  }

  /** A packet that changes no record. */
  lemma ServerIsQuiet(sys: System, s: SockId)
    requires Inv(sys) && s in sys.listed && s in sys.links && sys.links[s].up != [] && !Splits(sys, s)
    ensures Quiet(sys, ServerStep(sys, s))
  {
    hide Inv, Splits, ServerStep;
    OneLinkChanges(sys, s);
    QuietPacket(sys, s);
  }

  lemma QuietPacket(sys: System, s: SockId)
    requires Inv(sys) && s in sys.listed && s in sys.links && sys.links[s].up != [] && !Splits(sys, s)
    ensures var now := ServerStep(sys, s);
            && now.agents == sys.agents && s in now.links && now.links[s].token == sys.links[s].token
            && (now.links[s].stage == 9 ==> sys.links[s].stage == 9)
  {
    hide Lockstep, Converges, Numbered, Find, Filled, Members, InitAgent, GetAgentID;
    var l := sys.links[s];
    assert LinkOk(l, sys.agents, sys.lists);
    DueAtServer(l);
    if l.up[0].AgentIDRequest? && Find(sys, l.up[0].token, 0) == |sys.listed| {
      NotFound(sys, l.up[0].token);
    }
  }

  lemma AllowedIsQuiet(t: Tracked, e: Event)
    requires Inv(t.sys) && Allowed(t, e)
    ensures Quiet(t.sys, Step(t.sys, e))
  {
    hide Inv, Find, ServerStep, AgentStep, Splits, Members, GetAgentID;
    var sys := t.sys;
    ListedHasLink(sys);
    match e
    case ServerHandles(s) => if s in sys.listed && sys.links[s].up != [] { ServerIsQuiet(sys, s); }
    case AgentHandles(s) => if s in sys.listed && sys.links[s].down != [] { AgentIsQuiet(sys, s); }
    case _ =>
  }

  /** Only the logic thread takes packets. */
  lemma PacketStays(sys: System, e: Event, s: SockId)
    requires s in sys.links && sys.links[s].up != [] && !e.ServerHandles? && (e.Accept? ==> e.s != s)
    ensures var now := Step(sys, e);
            s in now.links && now.links[s].up != [] && now.links[s].up[0] == sys.links[s].up[0]
  {
    hide Find;
  }

  lemma OtherKeepsOrder(t: Tracked, e: Event)
    requires Orderly(t) && Allowed(t, e)
    ensures Orderly(MoveStep(t, Other(e)))
  {
    hide Step, Inv, LiveRight, FreshRead, Busy;
    StepKeepsInv(t.sys, e);
    AllowedIsQuiet(t, e);
    ListedHasLink(t.sys);
    OtherKeepsBusy(t, e);
    OtherKeepsLive(t, MoveStep(t, Other(e)));
  }

  lemma OtherKeepsBusy(t: Tracked, e: Event)
    requires (forall s :: s in t.sys.listed ==> s in t.sys.links) && Busy(t) && Allowed(t, e)
    requires Quiet(t.sys, Step(t.sys, e))
    ensures Busy(MoveStep(t, Other(e)))
  {
    hide Step, Splits;
    if !t.logic.Idle? { PacketStays(t.sys, e, t.logic.s); }
  }

  lemma OtherKeepsLive(t: Tracked, u: Tracked)
    requires (forall s :: s in t.sys.listed ==> s in t.sys.links) && LiveRight(t) && FreshRead(t)
    requires Quiet(t.sys, u.sys) && u.calls == t.calls && u.logic == t.logic
    ensures LiveRight(u) && FreshRead(u)
  {
    forall s | Live(u, s) ensures Live(t, s) && Right(u.sys.agents, u.sys.links[s]) {
      assert Right(t.sys.agents, t.sys.links[s]);
    }
  }

  // ---------------------------------------------------------------------------------------
  // Calls

  /** Nobody becomes live, and records, links and the handler stay. */
  lemma LessToCheck(t: Tracked, u: Tracked)
    requires LiveRight(t) && FreshRead(t) && Busy(t)
    requires u.sys.agents == t.sys.agents && u.sys.links == t.sys.links && u.logic == t.logic
    requires forall r :: r in u.sys.listed ==> r in t.sys.listed
    requires forall r :: r in t.calls && r in u.sys.listed ==> r in u.calls
    ensures LiveRight(u) && FreshRead(u) && Busy(u)
  {
    forall r | Live(u, r) ensures Live(t, r) { }
  }

  lemma ReadKeepsOrder(t: Tracked, s: SockId)
    requires Orderly(t) && s in t.sys.listed && s in t.sys.links && (Done(t, s) == 0 || Done(t, s) == 2)
    ensures Orderly(MoveStep(t, Call(s)))
  {
    hide Inv, LiveRight, FreshRead, Busy, Calling;
    NoTokenIsNobodys(t.sys);
    LessToCheck(t, MoveStep(t, Call(s)));
    ReadKeepsCalling(t, s);
  }

  lemma ReadKeepsCalling(t: Tracked, s: SockId)
    requires Calling(t) && NO_TOKEN !in t.sys.agents
    requires s in t.sys.listed && s in t.sys.links && (Done(t, s) == 0 || Done(t, s) == 2)
    ensures Calling(MoveStep(t, Call(s)))
  {
    var u := MoveStep(t, Call(s));
    forall r | r in u.pend
      ensures r in u.calls && r in u.sys.links && (u.calls[r] == 1 || u.calls[r] == 3)
      ensures u.pend[r].token == Seen(u, r) != NO_TOKEN && u.pend[r].token in u.sys.agents
      ensures u.pend[r].record.number == u.sys.agents[u.pend[r].token].number
    {
      if r != s {
        assert r in t.pend && u.pend[r] == t.pend[r] && u.calls[r] == t.calls[r];
      } else {
        assert s !in t.pend;
      }
    }
  }

  lemma NoTokenIsNobodys(sys: System)
    requires Inv(sys)
    ensures NO_TOKEN !in sys.agents
  {
  }

  /** Nobody who is live has the token of a pending record. */
  lemma LiveDiffers(t: Tracked, s: SockId, r: SockId)
    requires Orderly(t) && s in t.pend && Live(t, r)
    ensures t.sys.links[r].token != t.pend[s].token
  {
    hide LinkOk, Numbered, LiveRight, FreshRead;
    assert s != r;
  }

  lemma WriteKeepsOrder(t: Tracked, s: SockId)
    requires Orderly(t) && s in t.sys.listed && s in t.sys.links && (Done(t, s) == 1 || Done(t, s) == 3)
    ensures Orderly(MoveStep(t, Call(s)))
  {
    hide Inv, LiveRight, FreshRead, Busy, Numbered;
    var u := MoveStep(t, Call(s));
    if s in t.pend {
      var p := t.pend[s];
      WriteKeepsInv(t.sys, p);
      forall r | Live(u, r) ensures Live(t, r) && t.sys.links[r].token != p.token { LiveDiffers(t, s, r); }
      WriteKeepsLive(t, u, p.token);
      WriteKeepsBusy(t, u, p);
    } else {
      LessToCheck(t, u);
    }
  }

  lemma WriteKeepsInv(sys: System, p: Pending)
    requires Inv(sys) && p.token in sys.agents && p.record.number == sys.agents[p.token].number
    ensures Inv(sys.(agents := sys.agents[p.token := p.record]))
  {
    hide LinkOk, Numbered;
    RewriteNumbered(sys.agents, p.token, p.record);
    RenewKeepsInv(sys, sys.agents[p.token := p.record]);
  }

  lemma WriteKeepsBusy(t: Tracked, u: Tracked, p: Pending)
    requires Busy(t) && p.token in t.sys.agents && p.record.number == t.sys.agents[p.token].number
    requires u.logic == t.logic && u.sys == t.sys.(agents := t.sys.agents[p.token := p.record])
    ensures Busy(u)
  {
  }

  lemma WriteKeepsLive(t: Tracked, u: Tracked, token: int)
    requires LiveRight(t) && FreshRead(t) && u.logic == t.logic && u.sys.links == t.sys.links
    requires forall r :: Live(u, r) ==> Live(t, r) && t.sys.links[r].token != token
    requires forall k :: k != token ==> Look(u.sys.agents, k) == Look(t.sys.agents, k)
    ensures LiveRight(u) && FreshRead(u)
  {
    forall r | Live(u, r) ensures Right(u.sys.agents, u.sys.links[r]) {
      assert Right(t.sys.agents, t.sys.links[r]);
      assert Look(u.sys.agents, t.sys.links[r].token) == Look(t.sys.agents, t.sys.links[r].token);
    }
  }

  lemma DropKeepsOrder(t: Tracked, s: SockId)
    requires Orderly(t) && s in t.sys.listed && s in t.sys.links && Done(t, s) >= 4
    ensures Orderly(MoveStep(t, Call(s)))
  {
    hide Inv, LiveRight, FreshRead, Busy;
    StepKeepsInv(t.sys, Drop(s));
    LessToCheck(t, MoveStep(t, Call(s)));
  }

  // ---------------------------------------------------------------------------------------
  // Handlers

  lemma BeginKeepsOrder(t: Tracked, s: SockId)
    requires Orderly(t) && t.logic.Idle? && s in t.sys.links && Splits(t.sys, s)
    ensures Orderly(MoveStep(t, Begin(s)))
  {
    hide Lockstep, Converges, Numbered, Find;
    var sys := t.sys;
    var m := sys.links[s].up[0];
    if m.AgentIDRequest? {
      NotFound(sys, m.token);
      if s in sys.listed {
        assert LinkOk(sys.links[s], sys.agents, sys.lists);
        DueAtServer(sys.links[s]);
      }
    }
    var u := MoveStep(t, Begin(s));
    forall r | Live(u, r) ensures Live(t, r) { }
  }

  lemma FetchKeepsOrder(t: Tracked)
    requires Orderly(t) && t.logic.Taken?
    ensures Orderly(MoveStep(t, Fetch))
  {
    hide LinkOk, Numbered;
    var u := MoveStep(t, Fetch);
    forall r | Live(u, r) ensures Live(t, r) { }
  }

  /** What the write does to the records: one of them changes, its number stays, and a new one is the
      next. */
  lemma WriteNumbered(t: Tracked)
    requires Orderly(t) && t.logic.Fetched?
    ensures var h, agents, now := t.logic, t.sys.agents, EndStep(t).sys.agents;
            && Numbered(now) && KeepsNumbers(agents, now) && NO_TOKEN !in now
            && (forall k :: k != h.token ==> Look(now, k) == Look(agents, k))
            && (h.read.Nothing? ==> now == if h.registers then InitAgent(agents, h.token) else agents)
            && (h.read.Found? ==> now == agents[h.token := Changed(h.read.r, HandlerChange(h.registers))])
  {
    hide LinkOk, Numbered, LiveRight, FreshRead, Calling, ServerStep;
    var h, agents := t.logic, t.sys.agents;
    if h.read.Found? {
      RewriteNumbered(agents, h.token, Changed(h.read.r, HandlerChange(h.registers)));
    } else if h.registers {
      InitNumbered(agents, h.token);
    }
  }

  /** The rest of the handler changes the link of its socket only. */
  lemma HandlerServes(t: Tracked)
    requires Orderly(t) && t.logic.Fetched?
    ensures var h, sys, now := t.logic, t.sys, ServerStep(t.sys, t.logic.s);
            && now == sys.(agents := now.agents, links := sys.links[h.s := now.links[h.s]])
            && now.links[h.s].token == h.token
            && now.links[h.s].stage == sys.links[h.s].stage + 1
            && KeepsNumbers(now.agents, EndStep(t).sys.agents)
  {
    hide LinkOk, Numbered, LiveRight, FreshRead, Calling, Find;
    var h, sys := t.logic, t.sys;
    if h.registers { NobodyHasToken(sys, h.token) by { hide InitAgent; } }
  }

  lemma EndKeepsInv(t: Tracked)
    requires Orderly(t) && t.logic.Fetched?
    ensures Inv(EndStep(t).sys)
  {
    hide LinkOk, Numbered, LiveRight, FreshRead, Calling, Find, ServerStep;
    var h, sys, u := t.logic, t.sys, EndStep(t);
    WriteNumbered(t);
    HandlerServes(t);
    var now := ServerStep(sys, h.s);
    if h.s in sys.listed {
      StepKeepsInv(sys, ServerHandles(h.s));
      RenewKeepsInv(now, u.sys.agents);
    } else {
      RenewKeepsInv(sys, u.sys.agents);
      PutUnlistedKeepsInv(sys.(agents := u.sys.agents), h.s, now.links[h.s]);
    }
  }

  lemma PutUnlistedKeepsInv(sys: System, s: SockId, l: Link)
    requires Inv(sys) && s !in sys.listed
    ensures Inv(Put(sys, s, l))
  {
    hide LinkOk, Numbered;
  }

  /** Stages of the two packets, at a socket that is listed. */
  lemma StageOfHandler(t: Tracked)
    requires Orderly(t) && t.logic.Fetched? && t.logic.s in t.sys.listed
    ensures if t.logic.registers then t.sys.links[t.logic.s].stage == 0 && t.sys.links[t.logic.s].token == NO_TOKEN
            else t.sys.links[t.logic.s].token != NO_TOKEN
  {
    hide Lockstep, Converges, Numbered, LiveRight, FreshRead, Calling;
    assert LinkOk(t.sys.links[t.logic.s], t.sys.agents, t.sys.lists);
    DueAtServer(t.sys.links[t.logic.s]);
  }

  lemma EndKeepsLive(t: Tracked)
    requires Orderly(t) && t.logic.Fetched?
    ensures LiveRight(EndStep(t))
  {
    hide LinkOk, Numbered, Calling, ServerStep, Inv;
    var h, sys, u := t.logic, t.sys, EndStep(t);
    WriteNumbered(t);
    HandlerServes(t);
    if h.s in sys.listed { StageOfHandler(t); }
    forall r | Live(u, r) ensures Right(u.sys.agents, u.sys.links[r]) {
      if r != h.s || !h.registers {
        assert Live(t, r) && Right(sys.agents, sys.links[r]);
        assert Look(u.sys.agents, sys.links[r].token) == Look(sys.agents, sys.links[r].token)
            || sys.links[r].token == h.token;
      }
    }
  }

  lemma EndKeepsOrder(t: Tracked)
    requires Orderly(t) && t.logic.Fetched?
    ensures Orderly(MoveStep(t, End))
  {
    hide LinkOk, Numbered, ServerStep, Inv, LiveRight;
    EndKeepsInv(t);
    EndKeepsLive(t);
    WriteNumbered(t);
    HandlerServes(t);
  }

  lemma LateKeepsOrder(t: Tracked, s: SockId)
    requires Orderly(t) && t.logic.Idle? && s !in t.sys.listed && s in t.sys.links && t.sys.links[s].up != []
    ensures Orderly(MoveStep(t, Late(s)))
  {
    hide LinkOk, Numbered, Splits;
    PutUnlistedKeepsInv(t.sys, s, t.sys.links[s].(up := t.sys.links[s].up[1..]));
    var u := MoveStep(t, Late(s));
    forall r | Live(u, r) ensures Live(t, r) && u.sys.links[r] == t.sys.links[r] { }
  }

  lemma MoveKeepsOrder(t: Tracked, m: Move)
    requires Orderly(t)
    ensures Orderly(MoveStep(t, m))
  {
    hide Orderly, CallStep, BeginStep, FetchStep, EndStep, Splits;
    match m
    case Other(e) => if Allowed(t, e) { OtherKeepsOrder(t, e); }
    case Call(s) =>
      if s in t.sys.listed && s in t.sys.links {
        if Done(t, s) == 0 || Done(t, s) == 2 { ReadKeepsOrder(t, s); }
        else if Done(t, s) == 1 || Done(t, s) == 3 { WriteKeepsOrder(t, s); }
        else { DropKeepsOrder(t, s); }
      }
    case Begin(s) => if t.logic.Idle? && s in t.sys.links && Splits(t.sys, s) { BeginKeepsOrder(t, s); }
    case Fetch => if t.logic.Taken? { FetchKeepsOrder(t); }
    case End =>
      if t.logic.Fetched? && t.logic.s in t.sys.links && t.sys.links[t.logic.s].up != [] { EndKeepsOrder(t); }
    case Late(s) =>
      if t.logic.Idle? && s !in t.sys.listed && s in t.sys.links && t.sys.links[s].up != [] { LateKeepsOrder(t, s); }
  }

  lemma {:induction false} MovesKeepOrder(t: Tracked, ms: seq<Move>)
    requires Orderly(t)
    ensures Orderly(Moves(t, ms))
    decreases |ms|
  {
    if ms != [] {
      MoveKeepsOrder(t, ms[0]);
      MovesKeepOrder(MoveStep(t, ms[0]), ms[1..]);
    }
  }

  lemma StartIsOrderly(start: System)
    requires Initial(start)
    ensures Orderly(Started(start))
  {
    hide LinkOk, Numbered;
  }

  /** What the site shows, over every run: the record of a registered agent that is not being
      disconnected says that it is on, and that it is recording once the agent has been told to,
      whatever disconnections, late packets and lost writes came before. */
  lemma FlagsOfLiveAgents(start: System, ms: seq<Move>, s: SockId)
    requires Initial(start) && Live(Moves(Started(start), ms), s)
    ensures var end := Moves(Started(start), ms);
            var l := end.sys.links[s];
            && Right(end.sys.agents, l)
            && (l.stage < 9 ==> forall i :: 0 <= i < |l.down| ==> !l.down[i].StartRecord?)
            && forall r :: r in end.pend ==> end.pend[r].token != l.token
  {
    hide LinkOk, Numbered;
    var end := Moves(Started(start), ms);
    StartIsOrderly(start);
    MovesKeepOrder(Started(start), ms);
    RecordsAtTheEnd(end.sys, s);
    forall r | r in end.pend ensures end.pend[r].token != end.sys.links[s].token { LiveDiffers(end, r, s); }
  }

  lemma RecordsAtTheEnd(sys: System, s: SockId)
    requires Inv(sys) && s in sys.listed && s in sys.links
    ensures RecordsOnlyAtTheEnd(sys.links[s].stage, sys.links[s].down)
  {
    hide Numbered;
    assert LinkOk(sys.links[s], sys.agents, sys.lists);
  }
}
