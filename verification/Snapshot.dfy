/** The process snapshot: the agent groups the sorted process list by name, the server stores one
    string of process IDs per name, and the web side takes the strings apart again. Names and
    decimal texts are byte strings. */
module Snapshot {
  import opened Bytes

  const SPACE: byte := 32

  datatype ProcessInfo = ProcessInfo(name: seq<byte>, processID: int)

  /** One group of the message: a name and the process IDs that were adjacent under it. */
  datatype CurrentProcess = CurrentProcess(name: seq<byte>, ids: seq<int>)

  /** The order of `operator<` on names, as `std::string` compares. */
  predicate Less(a: seq<byte>, b: seq<byte>)
  {
    if b == [] then false
    else if a == [] then true
    else if a[0] != b[0] then a[0] < b[0]
    else Less(a[1..], b[1..])
  }

  lemma {:induction false} LessIsTotal(a: seq<byte>, b: seq<byte>)
    ensures a != b ==> Less(a, b) || Less(b, a)
    ensures !(Less(a, b) && Less(b, a))
  {
    if a != [] && b != [] && a[0] == b[0] {
      LessIsTotal(a[1..], b[1..]);
      assert a == [a[0]] + a[1..] && b == [b[0]] + b[1..];
    }
  }

  /** The first `n` bytes are the same. */
  predicate SameFront(a: seq<byte>, b: seq<byte>, n: nat)
    requires n <= |a| && n <= |b|
  {
    forall i :: 0 <= i < n ==> a[i] == b[i]
  }

  /** One name is less than another if it is the beginning of it, or has the smaller byte at the first
      place where they differ. */
  lemma {:induction false} LessExactly(a: seq<byte>, b: seq<byte>)
    ensures Less(a, b) <==>
              exists n: nat :: n <= |a| && n < |b| && SameFront(a, b, n) && (n == |a| || a[n] < b[n])
    decreases |a|
  {
    if a == [] {
      if b != [] { assert SameFront(a, b, 0); }
    } else if b != [] {
      if a[0] != b[0] {
        assert a[0] < b[0] ==> SameFront(a, b, 0);
        assert forall n: nat :: n <= |a| && n < |b| && SameFront(a, b, n) ==> n == 0;
      } else {
        LessExactly(a[1..], b[1..]);
        if Less(a, b) {
          var n: nat :| n <= |a[1..]| && n < |b[1..]| && SameFront(a[1..], b[1..], n)
                        && (n == |a[1..]| || a[1..][n] < b[1..][n]);
          assert forall i :: 0 < i <= n ==> a[i] == a[1..][i - 1] && b[i] == b[1..][i - 1];
          assert SameFront(a, b, n + 1);
        }
        if n: nat :| n <= |a| && n < |b| && SameFront(a, b, n) && (n == |a| || a[n] < b[n]) {
          assert n > 0 && SameFront(a[1..], b[1..], n - 1);
          assert n - 1 == |a[1..]| || a[1..][n - 1] < b[1..][n - 1];
        }
      }
    }
  }

  lemma {:induction false} NotLessIsTransitive(a: seq<byte>, b: seq<byte>, c: seq<byte>)
    requires !Less(b, a) && !Less(c, b)
    ensures !Less(c, a)
  {
    if a != [] && b != [] && c != [] && a[0] == b[0] == c[0] {
      NotLessIsTransitive(a[1..], b[1..], c[1..]);
    }
  }

  /** What `std::sort` leaves: no element is less than an earlier one. */
  ghost predicate Sorted(ps: seq<ProcessInfo>)
  {
    forall i, j :: 0 <= i < j < |ps| ==> !Less(ps[j].name, ps[i].name)
  }

  /** The sort of UpdateProcessList, by insertion; callers rely on the order of the names and on the
      elements, not on the order in which equal names are left. */
  method SortByName(processList: seq<ProcessInfo>) returns (sorted: seq<ProcessInfo>)
    ensures Sorted(sorted) && multiset(sorted) == multiset(processList)
  {
    hide Less, Sorted;
    NothingToSort();
    sorted := [];
    var i := 0;
    while i < |processList|
      invariant 0 <= i <= |processList|
      invariant Sorted(sorted) && multiset(sorted) == multiset(processList[..i])
    {
      var p := processList[i];
      var k := 0;
      while k < |sorted| && !Less(p.name, sorted[k].name)
        invariant 0 <= k <= |sorted|
        invariant forall j :: 0 <= j < k ==> !Less(p.name, sorted[j].name)
      {
        k := k + 1;
      }
      InsertKeepsSorted(sorted, k, p);
      InsertAdds(sorted, k, p);
      assert processList[..i + 1] == processList[..i] + [p];
      sorted := sorted[..k] + [p] + sorted[k..];
      i := i + 1;
    }
    assert processList[..i] == processList;
  }

  lemma NothingToSort()
    ensures Sorted([])
  {
  }

  lemma InsertAdds(ps: seq<ProcessInfo>, k: nat, p: ProcessInfo)
    requires k <= |ps|
    ensures multiset(ps[..k] + [p] + ps[k..]) == multiset(ps) + multiset{p}
  {
    assert ps == ps[..k] + ps[k..];
  }

  lemma InsertKeepsSorted(ps: seq<ProcessInfo>, k: nat, p: ProcessInfo)
    requires Sorted(ps) && k <= |ps| && forall j :: 0 <= j < k ==> !Less(p.name, ps[j].name)
    requires k < |ps| ==> Less(p.name, ps[k].name)
    ensures Sorted(ps[..k] + [p] + ps[k..])
  {
    hide Less;
    forall j | k <= j < |ps| ensures !Less(ps[j].name, p.name) {
      LessIsTotal(p.name, ps[k].name);
      if k < j { NotLessIsTransitive(p.name, ps[k].name, ps[j].name); }
    }
  }

  /** The process IDs under a name, in the order of the list. */
  function IDsOf(ps: seq<ProcessInfo>, name: seq<byte>): seq<int>
  {
    if ps == [] then []
    else (if ps[0].name == name then [ps[0].processID] else []) + IDsOf(ps[1..], name)
  }

  lemma {:induction false} IDsSnoc(ps: seq<ProcessInfo>, p: ProcessInfo, name: seq<byte>)
    ensures IDsOf(ps + [p], name) == IDsOf(ps, name) + if p.name == name then [p.processID] else []
  {
    if ps == [] {
      assert ps + [p] == [p] && [p][1..] == [];
      assert IDsOf([], name) == [];
    } else {
      assert (ps + [p])[0] == ps[0] && (ps + [p])[1..] == ps[1..] + [p];
      IDsSnoc(ps[1..], p, name);
      var h := if ps[0].name == name then [ps[0].processID] else [];
      var k := if p.name == name then [p.processID] else [];
      assert h + (IDsOf(ps[1..], name) + k) == h + IDsOf(ps[1..], name) + k;
    }
  }

  lemma {:induction false} NoIDs(ps: seq<ProcessInfo>, name: seq<byte>)
    requires forall i :: 0 <= i < |ps| ==> ps[i].name != name
    ensures IDsOf(ps, name) == []
  {
    if ps != [] { NoIDs(ps[1..], name); }
  }

  /** The IDs do not depend on the order in which sorting leaves equal names. */
  lemma {:induction false} IDsAsMultiset(ps: seq<ProcessInfo>, name: seq<byte>, id: int)
    ensures multiset(IDsOf(ps, name))[id] == multiset(ps)[ProcessInfo(name, id)]
  {
    if ps != [] {
      assert ps == [ps[0]] + ps[1..];
      IDsAsMultiset(ps[1..], name, id);
      var h := if ps[0].name == name then [ps[0].processID] else [];
      assert multiset(h + IDsOf(ps[1..], name)) == multiset(h) + multiset(IDsOf(ps[1..], name));
    }
  }

  lemma SameIDs(ps: seq<ProcessInfo>, qs: seq<ProcessInfo>, name: seq<byte>)
    requires multiset(ps) == multiset(qs)
    ensures multiset(IDsOf(ps, name)) == multiset(IDsOf(qs, name))
  {
    forall id: int ensures multiset(IDsOf(ps, name))[id] == multiset(IDsOf(qs, name))[id] {
      IDsAsMultiset(ps, name, id);
      IDsAsMultiset(qs, name, id);
    }
  }

  // ---------------------------------------------------------------------------------------
  // The agent: SendCurrentProcessList

  /** The groups of a message hold exactly the IDs of `ps`, one group for each non-empty name. */
  ghost predicate Grouped(groups: seq<CurrentProcess>, ps: seq<ProcessInfo>)
  {
    && (forall g :: g in groups ==> g.name != [] && g.ids == IDsOf(ps, g.name) && g.ids != [])
    && (forall i, j :: 0 <= i < j < |groups| ==> groups[i].name != groups[j].name)
    && (forall i :: 0 <= i < |ps| && ps[i].name != [] ==> exists g :: g in groups && g.name == ps[i].name)
  }

  /** The processes of a group, and of all groups in order. */
  function Infos(g: CurrentProcess): seq<ProcessInfo>
  {
    seq(|g.ids|, i requires 0 <= i < |g.ids| => ProcessInfo(g.name, g.ids[i]))
  }

  function Ungroup(groups: seq<CurrentProcess>): seq<ProcessInfo>
  {
    if groups == [] then [] else Ungroup(groups[..|groups| - 1]) + Infos(groups[|groups| - 1])
  }

  /** The list from its first process with a name on. */
  function Named(ps: seq<ProcessInfo>): seq<ProcessInfo>
  {
    if ps != [] && ps[0].name == [] then Named(ps[1..]) else ps
  }

  /** The groups are the stretches of equal adjacent names of `ps`, in order. */
  ghost predicate Stretches(groups: seq<CurrentProcess>, ps: seq<ProcessInfo>)
  {
    && Ungroup(groups) == Named(ps)
    && (forall i :: 0 <= i < |groups| ==> groups[i].ids != [])
    && (forall i :: 0 < i < |groups| ==> groups[i - 1].name != groups[i].name)
  }

  /** SendCurrentProcessList: of any list, the stretches of adjacent names; of a sorted one, a single
      group for each non-empty name. */
  method SendCurrentProcessList(processList: seq<ProcessInfo>) returns (groups: seq<CurrentProcess>)
    ensures Stretches(groups, processList)
    ensures Sorted(processList) ==> Grouped(groups, processList)
  {
    hide Named, Ungroup, Grouped, Sorted;
    NoStretches();
    groups := [];
    var cur: seq<byte> := [];
    var i := 0;
    while i < |processList|
      invariant 0 <= i <= |processList| && Stretches(groups, processList[..i])
      invariant Sorted(processList) ==> Grouped(groups, processList[..i])
      invariant i == 0 ==> cur == []
      invariant Sorted(processList) && i > 0 ==> cur == processList[i - 1].name
      invariant if groups == [] then cur == [] else groups[|groups| - 1].name == cur
    {
      var p := processList[i];
      ghost var before := processList[..i];
      assert processList[..i + 1] == before + [p];
      if cur != p.name {
        StretchBegins(groups, before, p);
        if Sorted(processList) {
          NewName(processList, i);
          GroupBegins(groups, before, p);
        }
        cur := p.name;
        groups := groups + [CurrentProcess(p.name, [p.processID])];
      } else if groups != [] {
        StretchGoesOn(groups, before, p);
        if Sorted(processList) { GroupGoesOn(groups, before, p); }
        var k := |groups| - 1;
        groups := groups[..k] + [CurrentProcess(groups[k].name, groups[k].ids + [p.processID])];
      } else {
        SkipNameless(before, p);
      }
      i := i + 1;
    }
    assert processList[..i] == processList;
  }

  lemma NoStretches()
    ensures Stretches([], []) && Grouped([], [])
  {
  }

  lemma {:induction false} NamedSnoc(ps: seq<ProcessInfo>, p: ProcessInfo)
    ensures Named(ps + [p]) == if Named(ps) == [] && p.name == [] then [] else Named(ps) + [p]
  {
    if ps == [] {
      assert ps + [p] == [p] && [p][1..] == [] && Named([]) == [];
    } else if ps[0].name == [] {
      assert (ps + [p])[1..] == ps[1..] + [p] && (ps + [p])[0] == ps[0];
      NamedSnoc(ps[1..], p);
    }
  }

  lemma UngroupSnoc(groups: seq<CurrentProcess>, g: CurrentProcess)
    ensures Ungroup(groups + [g]) == Ungroup(groups) + Infos(g)
  {
    assert (groups + [g])[..|groups|] == groups;
  }

  lemma StretchBegins(groups: seq<CurrentProcess>, before: seq<ProcessInfo>, p: ProcessInfo)
    requires Stretches(groups, before)
    requires p.name != if groups == [] then [] else groups[|groups| - 1].name
    ensures Stretches(groups + [CurrentProcess(p.name, [p.processID])], before + [p])
  {
    hide Named;
    var g := CurrentProcess(p.name, [p.processID]);
    UngroupSnoc(groups, g);
    NamedSnoc(before, p);
    assert Infos(g) == [p];
    if groups != [] { UngroupSome(groups); }
  }

  lemma UngroupSome(groups: seq<CurrentProcess>)
    requires groups != [] && groups[|groups| - 1].ids != []
    ensures Ungroup(groups) != []
  {
    assert Infos(groups[|groups| - 1]) != [];
  }

  lemma StretchGoesOn(groups: seq<CurrentProcess>, before: seq<ProcessInfo>, p: ProcessInfo)
    requires Stretches(groups, before) && groups != [] && groups[|groups| - 1].name == p.name
    ensures var k := |groups| - 1;
            Stretches(groups[..k] + [CurrentProcess(groups[k].name, groups[k].ids + [p.processID])], before + [p])
  {
    hide Named, Ungroup;
    var k := |groups| - 1;
    var rest, g0 := groups[..k], groups[k];
    var g := CurrentProcess(g0.name, g0.ids + [p.processID]);
    assert groups == rest + [g0];
    UngroupSome(groups);
    UngroupSnoc(rest, g0);
    UngroupSnoc(rest, g);
    NamedSnoc(before, p);
    assert Infos(g) == Infos(g0) + [p];
    assert Ungroup(rest) + (Infos(g0) + [p]) == Ungroup(rest) + Infos(g0) + [p];
  }

  /** In a sorted list, a name that differs from its predecessor's is new, and not empty. */
  lemma NewName(ps: seq<ProcessInfo>, i: nat)
    requires Sorted(ps) && i < |ps| && ps[i].name != if i == 0 then [] else ps[i - 1].name
    ensures ps[i].name != [] && forall j :: 0 <= j < i ==> ps[j].name != ps[i].name
  {
    if i > 0 {
      LessIsTotal(ps[i - 1].name, ps[i].name);
      assert Less(ps[i - 1].name, ps[i].name);
      forall j | 0 <= j < i ensures ps[j].name != ps[i].name {
        if j < i - 1 { assert !Less(ps[i - 1].name, ps[j].name); }
      }
    }
  }

  lemma GroupBegins(groups: seq<CurrentProcess>, before: seq<ProcessInfo>, p: ProcessInfo)
    requires Grouped(groups, before) && p.name != [] && forall j :: 0 <= j < |before| ==> before[j].name != p.name
    ensures Grouped(groups + [CurrentProcess(p.name, [p.processID])], before + [p])
  {
    var r := groups + [CurrentProcess(p.name, [p.processID])];
    NoIDs(before, p.name);
    forall g | g in r ensures g.ids == IDsOf(before + [p], g.name) {
      IDsSnoc(before, p, g.name);
      if g in groups { HasProcess(before, g.name); }
    }
    assert forall g :: g in groups ==> g in r;
    assert r[|groups|] in r;
    forall i, j | 0 <= i < j < |r| ensures r[i].name != r[j].name {
      assert r[i] in groups;
      HasProcess(before, r[i].name);
    }
  }

  /** A name with IDs is some process's name. */
  lemma {:induction false} HasProcess(ps: seq<ProcessInfo>, name: seq<byte>)
    ensures IDsOf(ps, name) != [] ==> exists j :: 0 <= j < |ps| && ps[j].name == name
  {
    if ps != [] && ps[0].name != name {
      HasProcess(ps[1..], name);
      if IDsOf(ps, name) != [] {
        var j :| 0 <= j < |ps[1..]| && ps[1..][j].name == name;
        assert ps[j + 1].name == name;
      }
    }
  }

  lemma GroupGoesOn(groups: seq<CurrentProcess>, before: seq<ProcessInfo>, p: ProcessInfo)
    requires Grouped(groups, before) && groups != [] && groups[|groups| - 1].name == p.name
    ensures var k := |groups| - 1;
            Grouped(groups[..k] + [CurrentProcess(groups[k].name, groups[k].ids + [p.processID])], before + [p])
  {
    var k := |groups| - 1;
    var g0 := groups[k];
    var r := groups[..k] + [CurrentProcess(g0.name, g0.ids + [p.processID])];
    assert g0 in groups;
    forall g | g in r ensures g.name != [] && g.ids == IDsOf(before + [p], g.name) && g.ids != [] {
      IDsSnoc(before, p, g.name);
      if g in groups[..k] {
        var i :| 0 <= i < k && groups[i] == g;
        assert groups[i].name != groups[k].name;
        assert g in groups;
      }
    }
    forall i | 0 <= i < |before + [p]| && (before + [p])[i].name != []
      ensures exists g :: g in r && g.name == (before + [p])[i].name
    {
      assert r[k] in r;
      if i < |before| {
        var g :| g in groups && g.name == before[i].name;
        var j :| 0 <= j < |groups| && groups[j] == g;
        assert r[j] in r && r[j].name == g.name;
      }
    }
  }

  lemma SkipNameless(before: seq<ProcessInfo>, p: ProcessInfo)
    requires p.name == []
    ensures Stretches([], before) ==> Stretches([], before + [p])
    ensures Grouped([], before) ==> Grouped([], before + [p])
  {
    NamedSnoc(before, p);
  }

  // ---------------------------------------------------------------------------------------
  // The server: SaveCurrentProcessList

  /** Decimal texts, each followed by a space. */
  function Joined(ids: seq<int>): seq<byte>
  {
    if ids == [] then [] else Joined(ids[..|ids| - 1]) + SignedDecimal(ids[|ids| - 1]) + [SPACE]
  }

  method JoinIDs(ids: seq<int>) returns (value: seq<byte>)
    ensures value == Joined(ids)
  {
    value := [];
    var j := 0;
    while j < |ids|
      invariant 0 <= j <= |ids| && value == Joined(ids[..j])
    {
      value := value + SignedDecimal(ids[j]) + [SPACE];
      assert ids[..j + 1][..j] == ids[..j];
      j := j + 1;
    }
    assert ids[..j] == ids;
  }

  /** Group number `i` is the last one with its name. */
  ghost predicate IsLast(groups: seq<CurrentProcess>, i: nat)
    requires i < |groups|
  {
    forall j :: i < j < |groups| ==> groups[j].name != groups[i].name
  }

  /** DEL, then one HMSET for each group: a later group replaces an earlier one with its name. */
  method SaveCurrentProcessList(groups: seq<CurrentProcess>) returns (hash: map<seq<byte>, seq<byte>>)
    ensures forall n :: n in hash <==> exists i :: 0 <= i < |groups| && groups[i].name == n
    ensures forall i :: 0 <= i < |groups| && IsLast(groups, i) ==> hash[groups[i].name] == Joined(groups[i].ids)
  {
    hash := map[];
    var i := 0;
    while i < |groups|
      invariant 0 <= i <= |groups|
      invariant forall n :: n in hash <==> exists j :: 0 <= j < i && groups[j].name == n
      invariant forall j :: 0 <= j < i && (forall k :: j < k < i ==> groups[k].name != groups[j].name)
                  ==> hash[groups[j].name] == Joined(groups[j].ids)
    {
      var value := JoinIDs(groups[i].ids);
      ghost var was := hash;
      hash := hash[groups[i].name := value];
      forall j | 0 <= j < i + 1 && (forall k :: j < k < i + 1 ==> groups[k].name != groups[j].name)
        ensures groups[j].name in hash && hash[groups[j].name] == Joined(groups[j].ids)
      {
        if j < i { assert groups[i].name != groups[j].name; }
      }
      i := i + 1;
    }
  }

  // ---------------------------------------------------------------------------------------
  // The web side: GetCurrentProcessList

  /** `v.split(" ")`: the pieces between spaces, one more than there are spaces. */
  function Split(v: seq<byte>): (pieces: seq<seq<byte>>)
    ensures pieces != []
  {
    if v == [] then [[]]
    else if v[0] == SPACE then [[]] + Split(v[1..])
    else [[v[0]] + Split(v[1..])[0]] + Split(v[1..])[1..]
  }

  predicate NoSpace(t: seq<byte>) { forall i :: 0 <= i < |t| ==> t[i] != SPACE }

  lemma {:induction false} SplitAppend(a: seq<byte>, t: seq<byte>)
    requires NoSpace(t)
    ensures Split(a + [SPACE] + t) == Split(a) + [t]
  {
    if a == [] {
      assert a + [SPACE] + t == [SPACE] + t && ([SPACE] + t)[1..] == t;
      SplitPlain(t);
    } else {
      assert (a + [SPACE] + t)[1..] == a[1..] + [SPACE] + t;
      SplitAppend(a[1..], t);
      var s := Split(a[1..]);
      assert (s + [t])[0] == s[0] && (s + [t])[1..] == s[1..] + [t];
    }
  }

  lemma {:induction false} SplitPlain(t: seq<byte>)
    requires NoSpace(t)
    ensures Split(t) == [t]
  {
    if t != [] {
      SplitPlain(t[1..]);
      assert [t[0]] + t[1..] == t;
    }
  }

  lemma {:induction false} SplitJoin(a: seq<byte>, t: seq<byte>)
    requires NoSpace(t)
    ensures var s := Split(a); Split(a + t) == s[..|s| - 1] + [s[|s| - 1] + t]
  {
    if a == [] {
      SplitPlain(t);
      assert a + t == t && [] + t == t;
    } else {
      assert (a + t)[0] == a[0] && (a + t)[1..] == a[1..] + t;
      SplitJoin(a[1..], t);
      GrowFirst(a[0], Split(a[1..]), t);
    }
  }

  /** Growing the last piece and adding a character in front do not interfere. */
  lemma GrowFirst(c: byte, r: seq<seq<byte>>, t: seq<byte>)
    requires r != []
    ensures var j := r[..|r| - 1] + [r[|r| - 1] + t];
            var s := if c == SPACE then [[]] + r else [[c] + r[0]] + r[1..];
            s[..|s| - 1] + [s[|s| - 1] + t] == if c == SPACE then [[]] + j else [[c] + j[0]] + j[1..]
  {
    if c != SPACE && |r| == 1 {
      assert [c] + (r[0] + t) == [c] + r[0] + t;
    }
  }

  /** The decimal texts of the IDs. */
  function Texts(ids: seq<int>): (r: seq<seq<byte>>)
    ensures |r| == |ids| && forall i :: 0 <= i < |ids| ==> r[i] == SignedDecimal(ids[i])
  {
    seq(|ids|, i requires 0 <= i < |ids| => SignedDecimal(ids[i]))
  }

  /** Two IDs, byte for byte: joined, and taken apart again. */
  lemma KnownSnapshot()
    ensures Joined([2, 304]) == [50, 32, 51, 48, 52, 32]
    ensures Split([50, 32, 51, 48, 52, 32]) == [[50], [51, 48, 52], []]
  {
    KnownNumbers();
    assert [2, 304][..1] == [2] && [2][..0] == [];
    assert Joined([2]) == Joined([]) + SignedDecimal(2) + [SPACE] == [50, 32];
    SplitInvertsJoin([2, 304]);
    assert Texts([2, 304]) == [[50], [51, 48, 52]];
  }

  /** Splitting inverts joining, up to the empty piece behind the last space. */
  lemma {:induction false} SplitInvertsJoin(ids: seq<int>)
    ensures Split(Joined(ids)) == Texts(ids) + [[]]
    decreases |ids|
  {
    if ids == [] {
      assert Texts(ids) + [[]] == [[]];
    } else {
      var k := |ids| - 1;
      var a, t, texts := Joined(ids[..k]), SignedDecimal(ids[k]), Texts(ids[..k]);
      SplitInvertsJoin(ids[..k]);
      OneMorePiece(a, t, texts);
      assert Texts(ids) == texts + [t];
    }
  }

  lemma OneMorePiece(a: seq<byte>, t: seq<byte>, texts: seq<seq<byte>>)
    requires NoSpace(t) && Split(a) == texts + [[]]
    ensures Split(a + t + [SPACE]) == texts + [t] + [[]]
  {
    hide Split;
    SplitJoin(a, t);
    assert [] + t == t && (texts + [[]])[..|texts|] == texts;
    assert Split(a + t) == texts + [t];
    SplitAppend(a + t, []);
    assert a + t + [SPACE] + [] == a + t + [SPACE];
  }

  /** GetCurrentProcessList: per name, the pieces of the stored string without the last one. */
  method GetCurrentProcessList(hash: map<seq<byte>, seq<byte>>) returns (list: map<seq<byte>, seq<seq<byte>>>)
    ensures list.Keys == hash.Keys
    ensures forall k :: k in hash ==> list[k] == var s := Split(hash[k]); s[..|s| - 1]
  {
    list := map[];
    var left := hash.Keys;
    while left != {}
      invariant left <= hash.Keys && list.Keys == hash.Keys - left
      invariant forall k :: k in list ==> list[k] == var s := Split(hash[k]); s[..|s| - 1]
      decreases |left|
    {
      var k :| k in left;
      var pids := Split(hash[k]);
      pids := pids[..|pids| - 1];
      list := list[k := pids];
      left := left - {k};
    }
  }

  lemma TakeOut(b: seq<int>, id: int) returns (rest: seq<int>)
    requires id in b
    ensures |rest| < |b| && multiset(b) == multiset{id} + multiset(rest)
    ensures multiset(Texts(b)) == multiset{SignedDecimal(id)} + multiset(Texts(rest))
  {
    hide SignedDecimal;
    var k :| 0 <= k < |b| && b[k] == id;
    rest := b[..k] + b[k + 1..];
    OneElement(b, k);
    OneElement(Texts(b), k);
    assert Texts(rest) == Texts(b)[..k] + Texts(b)[k + 1..];
  }

  lemma OneElement<T>(s: seq<T>, k: nat)
    requires k < |s|
    ensures multiset(s) == multiset{s[k]} + multiset(s[..k] + s[k + 1..])
  {
    assert s == s[..k] + [s[k]] + s[k + 1..];
  }

  lemma {:induction false} SameTexts(a: seq<int>, b: seq<int>)
    requires multiset(a) == multiset(b)
    ensures multiset(Texts(a)) == multiset(Texts(b))
    decreases |a|
  {
    hide Texts;
    if a == [] {
      assert |b| == |multiset(b)| == 0;
    } else {
      assert a[0] in multiset(b);
      var a1 := TakeOut(a, a[0]);
      var b1 := TakeOut(b, a[0]);
      assert multiset(a1) == multiset(a) - multiset{a[0]} == multiset(b1);
      SameTexts(a1, b1);
    }
  }

  /** Snapshot round trip: what the web side reads is, for every non-empty name of the snapshot and
      for no other, the decimal texts of exactly the IDs of the processes with that name. */
  method RoundTrip(processList: seq<ProcessInfo>) returns (list: map<seq<byte>, seq<seq<byte>>>)
    ensures forall n :: n in list <==> n != [] && exists p :: p in processList && p.name == n
    ensures forall n :: n in list ==> multiset(list[n]) == multiset(Texts(IDsOf(processList, n)))
  {
    var sorted := SortByName(processList);
    assert forall p :: p in sorted <==> p in multiset(sorted);
    assert forall p :: p in processList <==> p in multiset(processList);
    var groups := SendCurrentProcessList(sorted);
    var hash := SaveCurrentProcessList(groups);
    list := GetCurrentProcessList(hash);
    forall n | n in list
      ensures n != [] && multiset(list[n]) == multiset(Texts(IDsOf(processList, n)))
      ensures exists p :: p in processList && p.name == n
    {
      var i :| 0 <= i < |groups| && groups[i].name == n;
      assert IsLast(groups, i) && groups[i] in groups;
      SplitInvertsJoin(groups[i].ids);
      assert (Texts(groups[i].ids) + [[]])[..|groups[i].ids|] == Texts(groups[i].ids);
      SameIDs(sorted, processList, n);
      SameTexts(IDsOf(sorted, n), IDsOf(processList, n));
      HasProcess(sorted, n);
      var j :| 0 <= j < |sorted| && sorted[j].name == n;
      assert sorted[j] in processList;
    }
    forall p | p in processList && p.name != [] ensures p.name in list {
      assert p in sorted;
      var g :| g in groups && g.name == p.name;
    }
  }
}
