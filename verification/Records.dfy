/** One Redis record under several threads. A read and the write that follows it are two commands, so a
    write can be lost. Which updates a record holds in the end is told by the order of the reads and
    writes alone. */
module Records {
  import opened Session

  /** What a read finds. */
  datatype Read = Nothing | Found(r: Record)

  datatype Update = Edit(c: Change) | Create(number: int)

  /** An access to the record of a token. A write comes from the read at index `from` of the log. */
  datatype Access = Load(token: int) | Store(token: int, from: nat, update: Update)

  function Look(agents: map<int, Record>, token: int): Read
  {
    if token in agents then Found(agents[token]) else Nothing
  }

  function Updated(o: Read, u: Update): Read
  {
    match u
    case Create(n) => Found(Record(n, true, false))
    case Edit(c) => if o.Found? then Found(Changed(o.r, c)) else Nothing
  }

  predicate Stores(a: Access, token: int) { a.Store? && a.token == token }

  /** The updates that are not lost: the last write, then the last write before its read, and so on
      back; oldest first. */
  function Chain(log: seq<Access>, token: int): seq<Update>
    decreases |log|
  {
    if log == [] then []
    else
      var k := |log| - 1;
      if Stores(log[k], token) && log[k].from <= k then Chain(log[..log[k].from], token) + [log[k].update]
      else Chain(log[..k], token)
  }

  /** The updates, one after another. */
  function After(o: Read, us: seq<Update>): Read
  {
    if us == [] then o else Updated(After(o, us[..|us| - 1]), us[|us| - 1])
  }

  lemma AfterSnoc(o: Read, us: seq<Update>, u: Update)
    ensures After(o, us + [u]) == Updated(After(o, us), u)
  {
    assert (us + [u])[..|us|] == us;
  }

  /** The record at index `x` of the log. */
  function At(o: Read, log: seq<Access>, token: int, x: nat): Read
    requires x <= |log|
  {
    After(o, Chain(log[..x], token))
  }

  lemma AtStore(o: Read, log: seq<Access>, token: int, k: nat)
    requires k < |log| && Stores(log[k], token) && log[k].from <= k
    ensures At(o, log, token, k + 1) == Updated(At(o, log, token, log[k].from), log[k].update)
  {
    var from := log[k].from;
    assert log[..k + 1][..from] == log[..from];
    AfterSnoc(o, Chain(log[..from], token), log[k].update);
  }

  /** Between writes the record stays as it is. */
  lemma {:induction false} AtStays(o: Read, log: seq<Access>, token: int, m: nat, n: nat)
    requires m <= n <= |log| && forall i :: m <= i < n ==> !Stores(log[i], token)
    ensures At(o, log, token, n) == At(o, log, token, m)
    decreases n
  {
    if m < n {
      assert log[..n][..n - 1] == log[..n - 1];
      AtStays(o, log, token, m, n - 1);
    }
  }

  /** The record at `x`, if the last write before it is the one at `k`. */
  lemma AtAfter(o: Read, log: seq<Access>, token: int, k: nat, x: nat)
    requires k < x <= |log| && Stores(log[k], token) && log[k].from <= k
    requires forall i :: k < i < x ==> !Stores(log[i], token)
    ensures At(o, log, token, x) == Updated(At(o, log, token, log[k].from), log[k].update)
  {
    AtStore(o, log, token, k);
    AtStays(o, log, token, k + 1, x);
  }

  // ---------------------------------------------------------------------------------------
  // The flags

  predicate SwitchesOn(u: Update) { u.Create? || u == Edit(SetOn(true)) }

  predicate SwitchesOff(u: Update) { u == Edit(SetOn(false)) }

  predicate Starts(u: Update) { u == Edit(StartRecording) }

  predicate Stops(u: Update) { u.Create? || u == Edit(StopRecording) }

  /** The last update that sets the flag sets it; without one, it was set before. */
  ghost predicate LastSets(us: seq<Update>, sets: Update -> bool, clears: Update -> bool, before: bool)
  {
    || (exists i :: 0 <= i < |us| && sets(us[i]) && forall j :: i < j < |us| ==> !clears(us[j]))
    || (before && forall j :: 0 <= j < |us| ==> !clears(us[j]))
  }

  lemma LastSetsSnoc(us: seq<Update>, u: Update, sets: Update -> bool, clears: Update -> bool, before: bool)
    requires !(sets(u) && clears(u))
    ensures LastSets(us + [u], sets, clears, before)
            <==> if sets(u) then true else if clears(u) then false else LastSets(us, sets, clears, before)
  {
    var all := us + [u];
    assert all[|us|] == u;
    assert forall i :: 0 <= i < |us| ==> all[i] == us[i];
    if !sets(u) && !clears(u) && LastSets(us, sets, clears, before) {
      if i :| 0 <= i < |us| && sets(us[i]) && forall j :: i < j < |us| ==> !clears(us[j]) {
        assert sets(all[i]) && forall j :: i < j < |all| ==> !clears(all[j]);
      }
    }
    if !sets(u) && !clears(u) && LastSets(all, sets, clears, before) {
      if i :| 0 <= i < |all| && sets(all[i]) && forall j :: i < j < |all| ==> !clears(all[j]) {
        assert i < |us| && forall j :: i < j < |us| ==> !clears(us[j]);
      }
    }
  }

  /** What the two flags of a record say after a list of updates. */
  lemma {:induction false} FlagsAfter(o: Read, us: seq<Update>)
    ensures var f := After(o, us);
            f.Found? ==>
              && (f.r.isOn <==> LastSets(us, SwitchesOn, SwitchesOff, o.Found? && o.r.isOn))
              && (f.r.isRecording <==> LastSets(us, Starts, Stops, o.Found? && o.r.isRecording))
    decreases |us|
  {
    if us != [] {
      var init, u := us[..|us| - 1], us[|us| - 1];
      assert us == init + [u];
      FlagsAfter(o, init);
      LastSetsSnoc(init, u, SwitchesOn, SwitchesOff, o.Found? && o.r.isOn);
      LastSetsSnoc(init, u, Starts, Stops, o.Found? && o.r.isRecording);
    }
  }

  // ---------------------------------------------------------------------------------------
  // A disconnection and one handler

  /** From index `since` on, the record is read at `r1` and written at `w1` to switch it off, read at `r2`
      and written at `w2` to stop the recording, and nobody else writes it but the writes in `others`. */
  ghost predicate Disconnects(log: seq<Access>, token: int, since: nat, r1: nat, w1: nat, r2: nat, w2: nat,
                              others: set<nat>)
  {
    && since <= r1 < w1 < r2 < w2 < |log|
    && log[r1] == log[r2] == Load(token)
    && log[w1] == Store(token, r1, Edit(SetOn(false))) && log[w2] == Store(token, r2, Edit(StopRecording))
    && forall i :: since <= i < |log| && Stores(log[i], token) ==> i == w1 || i == w2 || i in others
  }

  /** No handler writes the record after the first read: it says neither on nor recording. */
  lemma QuietDisconnect(o: Read, log: seq<Access>, token: int, r1: nat, w1: nat, r2: nat, w2: nat)
    requires Disconnects(log, token, r1, r1, w1, r2, w2, {}) && At(o, log, token, r1).Found?
    ensures var f := At(o, log, token, |log|);
            f.Found? && !f.r.isOn && !f.r.isRecording
  {
    hide At;
    AtAfter(o, log, token, w1, r2);
    AtAfter(o, log, token, w2, |log|);
  }

  /** One handler reads the record at `a` and writes it at `b`: a registration, or else the start of a
      recording. */
  ghost predicate Handles(log: seq<Access>, token: int, since: nat, a: nat, b: nat, registers: bool)
  {
    && since <= a < b < |log| && log[a] == Load(token)
    && log[b] == Store(token, a, Edit(if registers then SetOn(true) else StartRecording))
  }

  /** A disconnection and one handler, in any order. The record says that the agent is on if and only if
      the write of the handler is not lost - it falls between the two updates of the disconnection, or
      behind both - and the handler registered, or had read the record when it still said so. The
      record says recording if and only if the write falls behind both updates, and the handler started
      the recording, or had read the record before the second one and when it said so. */
  lemma DisconnectAndHandler(o: Read, log: seq<Access>, token: int, since: nat,
                             r1: nat, w1: nat, r2: nat, w2: nat, a: nat, b: nat, registers: bool)
    requires Disconnects(log, token, since, r1, w1, r2, w2, {b}) && Handles(log, token, since, a, b, registers)
    requires b != w1 && b != w2 && At(o, log, token, since).Found?
    ensures var before, f := At(o, log, token, since).r, At(o, log, token, |log|);
            && f.Found?
            && (f.r.isOn <==> (w1 < b < r2 || w2 < b) && (registers || (a < w1 && before.isOn)))
            && (f.r.isRecording <==> w2 < b && (!registers || (a < w2 && before.isRecording)))
  {
    hide At;
    if b < w1 {
      HandlerFirst(o, log, token, since, r1, w1, r2, w2, a, b, registers);
    } else if b < w2 {
      HandlerBetween(o, log, token, since, r1, w1, r2, w2, a, b, registers);
    } else {
      HandlerLast(o, log, token, since, r1, w1, r2, w2, a, b, registers);
    }
  }

  /** The record at `x`, before any of the writes. */
  lemma AtFirst(o: Read, log: seq<Access>, token: int, since: nat, x: nat)
    requires since <= x <= |log| && forall i :: since <= i < x ==> !Stores(log[i], token)
    ensures At(o, log, token, x) == At(o, log, token, since)
  {
    AtStays(o, log, token, since, x);
  }

  lemma HandlerFirst(o: Read, log: seq<Access>, token: int, since: nat,
                     r1: nat, w1: nat, r2: nat, w2: nat, a: nat, b: nat, registers: bool)
    requires Disconnects(log, token, since, r1, w1, r2, w2, {b}) && Handles(log, token, since, a, b, registers)
    requires b < w1 && At(o, log, token, since).Found?
    ensures var f := At(o, log, token, |log|); f.Found? && !f.r.isOn && !f.r.isRecording
  {
    hide At;
    AtFirst(o, log, token, since, a);
    if r1 <= b { AtFirst(o, log, token, since, r1); } else { AtAfter(o, log, token, b, r1); }
    AtAfter(o, log, token, w1, r2);
    AtAfter(o, log, token, w2, |log|);
  }

  lemma HandlerBetween(o: Read, log: seq<Access>, token: int, since: nat,
                       r1: nat, w1: nat, r2: nat, w2: nat, a: nat, b: nat, registers: bool)
    requires Disconnects(log, token, since, r1, w1, r2, w2, {b}) && Handles(log, token, since, a, b, registers)
    requires w1 < b < w2 && At(o, log, token, since).Found?
    ensures var before, f := At(o, log, token, since).r, At(o, log, token, |log|);
            && f.Found? && !f.r.isRecording
            && (f.r.isOn <==> b < r2 && (registers || (a < w1 && before.isOn)))
  {
    hide At;
    AtFirst(o, log, token, since, r1);
    if a <= w1 { AtFirst(o, log, token, since, a); } else { AtAfter(o, log, token, w1, a); }
    if r2 <= b { AtAfter(o, log, token, w1, r2); } else { AtAfter(o, log, token, b, r2); }
    AtAfter(o, log, token, w2, |log|);
  }

  lemma HandlerLast(o: Read, log: seq<Access>, token: int, since: nat,
                    r1: nat, w1: nat, r2: nat, w2: nat, a: nat, b: nat, registers: bool)
    requires Disconnects(log, token, since, r1, w1, r2, w2, {b}) && Handles(log, token, since, a, b, registers)
    requires w2 < b && At(o, log, token, since).Found?
    ensures var before, f := At(o, log, token, since).r, At(o, log, token, |log|);
            && f.Found?
            && (f.r.isOn <==> registers || (a < w1 && before.isOn))
            && (f.r.isRecording <==> !registers || (a < w2 && before.isRecording))
  {
    hide At;
    AtFirst(o, log, token, since, r1);
    AtAfter(o, log, token, w1, r2);
    if a <= w1 { AtFirst(o, log, token, since, a); }
    else if a <= w2 { AtAfter(o, log, token, w1, a); }
    else { AtAfter(o, log, token, w2, a); }
    AtAfter(o, log, token, b, |log|);
  }
}
