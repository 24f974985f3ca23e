/** The history of a counter across the agent, the server and the web side: what is compressed batch by
    batch, stored, cut out and expanded again is the original series, exactly when it is. */
module Histories {
  import opened TimeSeries

  // ---------------------------------------------------------------------------------------
  // Compression followed by expansion

  function Flat(batches: seq<seq<Sample>>): seq<Sample>
  {
    if batches == [] then [] else batches[0] + Flat(batches[1..])
  }

  /** One sample per second. */
  ghost predicate EverySecond(s: seq<Sample>)
  {
    forall i :: 0 <= i < |s| ==> s[i].time == s[0].time + i
  }

  /** Batches that are not empty, not too long, and do not begin with the sentinel value. */
  ghost predicate Cut(batches: seq<seq<Sample>>, longest: int)
  {
    forall i :: 0 <= i < |batches| ==> 1 <= |batches[i]| <= longest && batches[i][0].value != -1.0
  }

  /** `kept` stands for the second of `x`: its latest sample has the value of `x` and is not older
      than `age`. */
  ghost predicate Stands(kept: seq<Sample>, x: Sample, age: int)
  {
    kept != [] && kept[0].time <= x.time
    && kept[Latest(kept, x.time)].value == x.value && x.time - kept[Latest(kept, x.time)].time <= age
  }

  /** A compressed batch is made of samples of the batch, in order. */
  lemma {:induction false} CompressPicks(cur: real, logs: seq<Sample>)
    requires EverySecond(logs)
    ensures var c := Compress(cur, logs);
            Ascending(c) && forall x :: x in c ==> x in logs
    decreases |logs|
  {
    if logs != [] {
      CompressPicks(logs[0].value, logs[1..]);
      CompressPicks(cur, logs[1..]);
      var rest := Compress(logs[0].value, logs[1..]);
      forall i | 0 <= i < |rest| ensures rest[i].time > logs[0].time {
        assert rest[i] in logs[1..];
      }
    }
  }

  /** Within a batch: a sample that was kept stands for the equal ones that follow it. */
  lemma {:induction false} CompressStands(first: Sample, logs: seq<Sample>, i: nat)
    requires EverySecond([first] + logs) && i <= |logs|
    ensures Stands([first] + Compress(first.value, logs), ([first] + logs)[i], |logs|)
    decreases |logs|
  {
    hide Compress, Stands, Latest;
    var all := [first] + logs;
    assert forall j :: 0 <= j < |logs| ==> logs[j] == all[j + 1];
    CompressPicks(first.value, logs);
    if i == 0 {
      StandsForItself(first, logs, Compress(first.value, logs));
    } else if logs[0].value != first.value {
      assert [logs[0]] + logs[1..] == logs;
      CompressStands(logs[0], logs[1..], i - 1);
      CompressKeeps(first.value, logs);
      var kept := Compress(first.value, logs);
      assert kept == [logs[0]] + Compress(logs[0].value, logs[1..]);
      StandsLater(first, kept, logs[i - 1], |logs| - 1, |logs|);
    } else {
      // `logs[0]` repeats `first`: a batch without it is compressed to the same samples
      SkipRepeat(first, logs, i);
    }
  }

  lemma StandsForItself(first: Sample, logs: seq<Sample>, rest: seq<Sample>)
    requires EverySecond([first] + logs) && forall x :: x in rest ==> x in logs
    ensures Stands([first] + rest, first, |logs|)
  {
    var kept := [first] + rest;
    if rest != [] {
      assert rest[0] in logs;
      var j :| 0 <= j < |logs| && logs[j] == rest[0];
      assert ([first] + logs)[j + 1] == kept[1];
    }
    assert Latest(kept, first.time) == 0;
  }

  /** An earlier sample in front does not matter for a later second. */
  lemma StandsLater(first: Sample, kept: seq<Sample>, x: Sample, age: int, age': int)
    requires kept != [] && first.time < kept[0].time && Stands(kept, x, age) && age <= age'
    ensures Stands([first] + kept, x, age')
  {
    var k := [first] + kept;
    assert k[1..] == kept && k[1].time <= x.time;
    assert Latest(k, x.time) == 1 + Latest(kept, x.time);
  }

  lemma SkipRepeat(first: Sample, logs: seq<Sample>, i: nat)
    requires EverySecond([first] + logs) && 1 <= i <= |logs| && logs[0].value == first.value
    ensures Stands([first] + Compress(first.value, logs), ([first] + logs)[i], |logs|)
    decreases |logs|, 0
  {
    hide Compress, Stands, Latest;
    var tail := logs[1..];
    assert [logs[0]] + tail == logs;
    PartsEverySecond([first], logs);
    CompressStands(logs[0], tail, i - 1);
    CompressSkips(logs);
    KeptLater(logs[0], tail);
    assert ([first] + logs)[1].time == first.time + 1;
    StandsEarlier(first, logs[0], Compress(first.value, tail), logs[i - 1], |tail|);
  }

  /** What is kept of the samples after `first` comes after it. */
  lemma KeptLater(first: Sample, tail: seq<Sample>)
    requires EverySecond([first] + tail)
    ensures var rest := Compress(first.value, tail);
            Ascending(rest) && forall j :: 0 <= j < |rest| ==> rest[j].time > first.time
  {
    hide Compress;
    PartsEverySecond([first], tail);
    CompressPicks(first.value, tail);
    var rest := Compress(first.value, tail);
    forall j | 0 <= j < |rest| ensures rest[j].time > first.time {
      assert rest[j] in rest && rest[j] in tail;
      var k :| 0 <= k < |tail| && tail[k] == rest[j];
      assert ([first] + tail)[k + 1] == tail[k];
    }
  }

  lemma CompressKeeps(cur: real, logs: seq<Sample>)
    requires logs != [] && logs[0].value != cur
    ensures Compress(cur, logs) == [logs[0]] + Compress(logs[0].value, logs[1..])
  {
  }

  lemma CompressSkips(logs: seq<Sample>)
    requires logs != []
    ensures Compress(logs[0].value, logs) == Compress(logs[0].value, logs[1..])
  {
  }

  /** An equal sample one second earlier stands as well, at one second more of age. */
  lemma StandsEarlier(early: Sample, late: Sample, rest: seq<Sample>, x: Sample, age: int)
    requires early.time + 1 == late.time && early.value == late.value
    requires Ascending(rest) && forall j :: 0 <= j < |rest| ==> rest[j].time > late.time
    requires Stands([late] + rest, x, age)
    ensures Stands([early] + rest, x, age + 1)
  {
    hide Latest;
    var a, b := [late] + rest, [early] + rest;
    var k := Latest(a, x.time);
    assert forall j :: 1 <= j < |a| ==> a[j] == rest[j - 1] == b[j];
    assert a[k].time <= x.time && (k + 1 < |a| ==> x.time < a[k + 1].time);
    assert Ascending(b);
    LatestIsUnique(b, x.time, k);
  }

  /** A whole batch is stood for by what is kept of it, however old that may get within it. */
  lemma BatchStands(b: seq<Sample>)
    requires b != [] && EverySecond(b) && b[0].value != NO_VALUE
    ensures var c := Compress(NO_VALUE, b);
            && c != [] && c[0] == b[0] && Ascending(c) && (forall x :: x in c ==> x in b)
            && forall i :: 0 <= i < |b| ==> Stands(c, b[i], |b| - 1)
  {
    var c := Compress(NO_VALUE, b);
    assert b == [b[0]] + b[1..];
    CompressPicks(NO_VALUE, b);
    forall i | 0 <= i < |b| ensures Stands(c, b[i], |b| - 1) {
      CompressStands(b[0], b[1..], i);
    }
  }

  /** All batches together: the kept samples stand for every second of the series. */
  lemma {:induction false} KeptStands(batches: seq<seq<Sample>>, longest: int)
    requires batches != [] && Cut(batches, longest) && EverySecond(Flat(batches))
    ensures var k, f := Kept(batches), Flat(batches);
            && k != [] && f != [] && k[0] == f[0] && Ascending(k) && (forall x :: x in k ==> x in f)
            && forall i :: 0 <= i < |f| ==> Stands(k, f[i], longest - 1)
    decreases |batches|
  {
    hide Stands, Compress, Latest;
    var b, rest := batches[0], batches[1..];
    FlatSplits(batches);
    BatchStands(b);
    if rest == [] {
      OneBatchStands(b, longest);
      assert Kept(batches) == Compress(NO_VALUE, b) + [] == Compress(NO_VALUE, b);
    } else {
      KeptStands(rest, longest);
      KeptJoin(b, Flat(rest), Compress(NO_VALUE, b), Kept(rest), longest - 1);
    }
  }

  lemma FlatSplits(batches: seq<seq<Sample>>)
    requires batches != [] && EverySecond(Flat(batches))
    ensures Flat(batches) == batches[0] + Flat(batches[1..])
    ensures EverySecond(batches[0]) && EverySecond(Flat(batches[1..]))
    ensures |batches| == 1 ==> Flat(batches) == batches[0]
  {
    var b, g := batches[0], Flat(batches[1..]);
    PartsEverySecond(b, g);
    if |batches| == 1 {
      assert batches[1..] == [] && b + [] == b;
    }
  }

  lemma PartsEverySecond(b: seq<Sample>, g: seq<Sample>)
    requires EverySecond(b + g)
    ensures EverySecond(b) && EverySecond(g)
  {
    var f := b + g;
    forall i | 0 <= i < |b| ensures b[i].time == b[0].time + i {
      assert b[i] == f[i] && b[0] == f[0];
    }
    forall i | 0 <= i < |g| ensures g[i].time == g[0].time + i {
      assert g[i] == f[|b| + i] && g[0] == f[|b|];
    }
  }

  lemma OneBatchStands(b: seq<Sample>, longest: int)
    requires b != [] && EverySecond(b) && b[0].value != NO_VALUE && |b| <= longest
    ensures forall i :: 0 <= i < |b| ==> Stands(Compress(NO_VALUE, b), b[i], longest - 1)
  {
    BatchStands(b);
    forall i | 0 <= i < |b| ensures Stands(Compress(NO_VALUE, b), b[i], longest - 1) {
      StandsLonger(Compress(NO_VALUE, b), b[i], |b| - 1, longest - 1);
    }
  }

  lemma StandsLonger(kept: seq<Sample>, x: Sample, age: int, age': int)
    requires Stands(kept, x, age) && age <= age'
    ensures Stands(kept, x, age')
  {
  }

  lemma KeptJoin(b: seq<Sample>, g: seq<Sample>, c: seq<Sample>, k: seq<Sample>, age: int)
    requires b != [] && g != [] && EverySecond(b + g) && c != [] && k != [] && k[0] == g[0] && |b| - 1 <= age
    requires Ascending(c) && Ascending(k) && (forall x :: x in c ==> x in b) && (forall x :: x in k ==> x in g)
    requires forall i :: 0 <= i < |b| ==> Stands(c, b[i], |b| - 1)
    requires forall i :: 0 <= i < |g| ==> Stands(k, g[i], age)
    ensures Ascending(c + k) && forall i :: 0 <= i < |b + g| ==> Stands(c + k, (b + g)[i], age)
  {
    hide Stands;
    var f := b + g;
    assert forall i :: 0 <= i < |b| ==> f[i] == b[i];
    assert forall i :: 0 <= i < |g| ==> f[|b| + i] == g[i];
    assert Earlier(c, k) by {
      forall i, j | 0 <= i < |c| && 0 <= j < |k| ensures c[i].time < k[j].time {
        assert c[i] in b && k[j] in g;
      }
    }
    forall i | 0 <= i < |f| ensures Stands(c + k, f[i], age) {
      if i < |b| {
        StandsBefore(c, k, f[i], |b| - 1, age);
      } else {
        assert f[i] == g[i - |b|];
        StandsAfter(c, k, f[i], age);
      }
    }
  }

  lemma StandsBefore(c: seq<Sample>, k: seq<Sample>, x: Sample, age: int, age': int)
    requires Stands(c, x, age) && age <= age' && Ascending(c + k) && k != [] && x.time < k[0].time
    ensures Stands(c + k, x, age')
  {
    LatestIsUnique(c + k, x.time, Latest(c, x.time));
  }

  lemma StandsAfter(c: seq<Sample>, k: seq<Sample>, x: Sample, age: int)
    requires Stands(k, x, age) && Ascending(c + k) && c != []
    ensures Stands(c + k, x, age)
  {
    var l := Latest(k, x.time);
    assert (c + k)[0].time < (c + k)[|c| + l].time && (c + k)[|c| + l] == k[l];
    LatestIsUnique(c + k, x.time, |c| + l);
  }

  ghost predicate Earlier(c: seq<Sample>, k: seq<Sample>)
  {
    forall i, j :: 0 <= i < |c| && 0 <= j < |k| ==> c[i].time < k[j].time
  }

  /** Whatever the batches are, what is kept of them is part of the series, in order. */
  lemma {:induction false} KeptPicks(batches: seq<seq<Sample>>)
    requires EverySecond(Flat(batches))
    ensures Ascending(Kept(batches)) && forall x :: x in Kept(batches) ==> x in Flat(batches)
    decreases |batches|
  {
    hide Compress;
    if batches != [] {
      var b, rest := batches[0], batches[1..];
      FlatSplits(batches);
      CompressPicks(NO_VALUE, b);
      KeptPicks(rest);
      BatchesInOrder(b, Flat(rest), Compress(NO_VALUE, b), Kept(rest));
    }
  }

  lemma BatchesInOrder(b: seq<Sample>, g: seq<Sample>, c: seq<Sample>, k: seq<Sample>)
    requires EverySecond(b + g) && Ascending(c) && Ascending(k)
    requires (forall x :: x in c ==> x in b) && (forall x :: x in k ==> x in g)
    ensures Ascending(c + k) && forall x :: x in c + k ==> x in b + g
  {
    assert Earlier(c, k) by {
      forall i, j | 0 <= i < |c| && 0 <= j < |k| ensures c[i].time < k[j].time {
        assert c[i] in b && k[j] in g;
        var p :| 0 <= p < |b| && b[p] == c[i];
        var q :| 0 <= q < |g| && g[q] == k[j];
        assert (b + g)[p] == c[i] && (b + g)[|b| + q] == k[j];
      }
    }
  }

  // ---------------------------------------------------------------------------------------
  // The theorem

  /** The window that the web side sees of a recorded series. */
  function Window(batches: seq<seq<Sample>>, interval: int, endTime: int): seq<Sample>
  {
    Filter(Reverse(LRange(Reverse(Kept(batches)), interval)), endTime - interval, endTime)
  }

  /** From the first second of the window to its end, the expanded history is the original series
      (if that reaches so far). */
  ghost predicate Restored(batches: seq<seq<Sample>>, responseTime: int, interval: int, endTime: int)
  {
    var f, w := Flat(batches), Window(batches, interval, endTime);
    var e := Expand(w, responseTime, endTime);
    f != [] && w != [] && endTime <= f[0].time + |f| ==>
      var d := w[0].time - f[0].time;
      0 <= d <= d + |e| <= |f| && w[0].time + |e| == endTime && e == f[d..d + |e|]
  }

  /** One look at each second of the series: from the first kept sample on, the latest kept sample has
      the right value and is not too old. No window is part of it. */
  ghost predicate Covered(batches: seq<seq<Sample>>, responseTime: int)
  {
    var f, k := Flat(batches), Kept(batches);
    forall i :: 0 <= i < |f| && k != [] && k[0].time <= f[i].time ==> Shown(k, responseTime, f[i].time) == f[i]
  }

  /** From index `m` on, where the fetched part begins, the window is a stretch of what was kept. */
  lemma WindowIsStretch(batches: seq<seq<Sample>>, interval: int, endTime: int) returns (m: nat, lo: nat, hi: nat)
    requires Ascending(Kept(batches))
    ensures var k := Kept(batches);
            && (interval >= |k| ==> m == 0)
            && m <= lo <= hi <= |k| && Window(batches, interval, endTime) == k[lo..hi]
            && forall j :: m <= j < |k| ==> (lo <= j < hi <==> InWindow(k[j], endTime - interval, endTime))
  {
    hide Filter, Kept;
    var k := Kept(batches);
    m := WindowIsSuffix(k, interval);
    var s := k[m..];
    var a, b := FilterIsSlice(s, endTime - interval, endTime);
    lo, hi := m + a, m + b;
    assert s[a..b] == k[lo..hi];
    forall j | m <= j < |k| ensures lo <= j < hi <==> InWindow(k[j], endTime - interval, endTime) {
      assert s[j - m] == k[j];
    }
  }

  /** Inside the window, a second is shown as all kept samples together would show it. */
  lemma ShownInStretch(k: seq<Sample>, responseTime: int, t: int, m: nat, lo: nat, hi: nat,
                       startTime: int, endTime: int)
    requires m <= lo < hi <= |k| && Ascending(k) && k[lo].time <= t < endTime
    requires forall j :: m <= j < |k| ==> (lo <= j < hi <==> InWindow(k[j], startTime, endTime))
    ensures k[0].time <= t && Shown(k[lo..hi], responseTime, t) == Shown(k, responseTime, t)
  {
    hide Latest;
    var w := k[lo..hi];
    assert forall j :: 0 <= j < |w| ==> w[j] == k[lo + j];
    assert k[0].time <= k[lo].time;
    var l := Latest(k, t);
    LatestIsLast(k, t, lo);
    assert InWindow(k[lo], startTime, endTime);
    assert InWindow(k[l], startTime, endTime) by { assert lo < l ==> k[lo].time < k[l].time; }
    LatestIsUnique(w, t, l - lo);
  }

  /** The expansion of a stretch, second by second. */
  lemma StretchExpanded(k: seq<Sample>, m: nat, lo: nat, hi: nat, responseTime: int, startTime: int, endTime: int)
    requires m <= lo < hi <= |k| && Ascending(k)
    requires forall j :: m <= j < |k| ==> (lo <= j < hi <==> InWindow(k[j], startTime, endTime))
    ensures var e := Expand(k[lo..hi], responseTime, endTime);
            && k[0].time <= k[lo].time < endTime && |e| == endTime - k[lo].time
            && forall j :: 0 <= j < |e| ==> e[j] == Shown(k, responseTime, k[lo].time + j)
  {
    hide Expand, Shown;
    var w := k[lo..hi];
    assert forall j :: 0 <= j < |w| ==> w[j] == k[lo + j];
    assert InWindow(k[hi - 1], startTime, endTime) && InWindow(k[lo], startTime, endTime);
    assert lo > 0 ==> k[0].time < k[lo].time;
    ExpandAt(w, responseTime, endTime);
    var e := Expand(w, responseTime, endTime);
    forall j | 0 <= j < |e| ensures e[j] == Shown(k, responseTime, k[lo].time + j) {
      assert e[j] == Shown(w, responseTime, w[0].time + j);
      ShownInStretch(k, responseTime, k[lo].time + j, m, lo, hi, startTime, endTime);
    }
  }

  lemma RestoredWhenCovered(batches: seq<seq<Sample>>, responseTime: int, interval: int, endTime: int)
    requires EverySecond(Flat(batches)) && Covered(batches, responseTime)
    ensures Restored(batches, responseTime, interval, endTime)
  {
    hide Expand, Kept, Flat, Window, Shown;
    var f, k, w := Flat(batches), Kept(batches), Window(batches, interval, endTime);
    KeptPicks(batches);
    var m, lo, hi := WindowIsStretch(batches, interval, endTime);
    if f != [] && w != [] && endTime <= f[0].time + |f| {
      StretchExpanded(k, m, lo, hi, responseTime, endTime - interval, endTime);
      assert k[lo] in f;
      var d :| 0 <= d < |f| && f[d] == k[lo];
      var e := Expand(w, responseTime, endTime);
      forall j | 0 <= j < |e| ensures e[j] == f[d + j] {
        assert f[d + j].time == k[lo].time + j;
      }
      assert e == f[d..d + |e|];
    }
  }

  lemma CoveredWhenRestored(batches: seq<seq<Sample>>, responseTime: int, i: nat)
    requires EverySecond(Flat(batches)) && i < |Flat(batches)|
    requires Kept(batches) != [] && Kept(batches)[0].time <= Flat(batches)[i].time
    requires forall interval, endTime :: Restored(batches, responseTime, interval, endTime)
    ensures Shown(Kept(batches), responseTime, Flat(batches)[i].time) == Flat(batches)[i]
  {
    hide Expand, Kept, Flat, Window, Shown;
    var f, k := Flat(batches), Kept(batches);
    // a window that ends behind the second and begins before everything
    var endTime := f[i].time + 1;
    var interval := |k| + endTime - k[0].time;
    KeptPicks(batches);
    var m, lo, hi := WindowIsStretch(batches, interval, endTime);
    assert InWindow(k[0], endTime - interval, endTime);
    StretchExpanded(k, m, lo, hi, responseTime, endTime - interval, endTime);
    var w := Window(batches, interval, endTime);
    var e := Expand(w, responseTime, endTime);
    assert w[0] == k[0] && f[i].time == f[0].time + i;
    assert Restored(batches, responseTime, interval, endTime);
    assert e[|e| - 1] == f[i];
  }

  /** Exactly which series are restored: for every window the expanded history is the recorded series,
      if and only if every second from the first kept sample on is covered. */
  lemma RestoredExactly(batches: seq<seq<Sample>>, responseTime: int)
    requires EverySecond(Flat(batches))
    ensures (forall interval, endTime :: Restored(batches, responseTime, interval, endTime))
            <==> Covered(batches, responseTime)
  {
    hide Restored, Shown;
    if Covered(batches, responseTime) {
      forall interval, endTime ensures Restored(batches, responseTime, interval, endTime) {
        RestoredWhenCovered(batches, responseTime, interval, endTime);
      }
    }
    if forall interval, endTime :: Restored(batches, responseTime, interval, endTime) {
      var f, k := Flat(batches), Kept(batches);
      forall i | 0 <= i < |f| && k != [] && k[0].time <= f[i].time
        ensures Shown(k, responseTime, f[i].time) == f[i]
      {
        CoveredWhenRestored(batches, responseTime, i);
      }
    }
  }

  /** Batches that are neither too long nor begin with the sentinel are covered. */
  lemma CutIsCovered(batches: seq<seq<Sample>>, responseTime: int)
    requires Cut(batches, responseTime + 1) && EverySecond(Flat(batches))
    ensures Covered(batches, responseTime)
  {
    hide Latest, Kept, Flat;
    if batches != [] {
      KeptStands(batches, responseTime + 1);
    } else {
      NoBatches();
    }
  }

  lemma NoBatches()
    ensures Flat([]) == [] && Kept([]) == []
  {
  }

  /** Dropping repeats batch by batch loses nothing: whatever the window, the expanded history is
      the recorded series, as long as no batch is longer than responseTime + 1. */
  lemma LosslessHistory(batches: seq<seq<Sample>>, responseTime: int, interval: int, endTime: int)
    requires Cut(batches, responseTime + 1) && EverySecond(Flat(batches))
    ensures Restored(batches, responseTime, interval, endTime)
  {
    hide Restored;
    CutIsCovered(batches, responseTime);
    RestoredWhenCovered(batches, responseTime, interval, endTime);
  }

  /** What LRANGE fetches is a suffix of the ascending list. */
  lemma WindowIsSuffix(k: seq<Sample>, interval: int) returns (m: nat)
    ensures m <= |k| && Reverse(LRange(Reverse(k), interval)) == k[m..]
    ensures interval >= |k| ==> m == 0
  {
    m := |k| - |LRange(Reverse(k), interval)|;
  }

  /** Batches up to `longest` samples are safe for this response time. */
  ghost predicate Lossless(longest: int, responseTime: int)
  {
    forall batches, interval, endTime ::
      Cut(batches, longest) && EverySecond(Flat(batches)) ==> Restored(batches, responseTime, interval, endTime)
  }

  /** The bound is exact: compression is lossless for every series and every window if and only if
      batches have at most responseTime + 1 samples. */
  lemma LosslessExactly(longest: int, responseTime: nat)
    ensures Lossless(longest, responseTime) <==> longest <= responseTime + 1
  {
    if longest <= responseTime + 1 {
      forall batches, interval, endTime | Cut(batches, longest) && EverySecond(Flat(batches))
        ensures Restored(batches, responseTime, interval, endTime)
      {
        LosslessHistory(batches, responseTime, interval, endTime);
      }
    } else {
      var b := Constant(responseTime + 2);
      ConstantIsLost(responseTime);
      assert Flat([b]) == b + Flat([b][1..]) == b;
      assert Cut([b], longest);
    }
  }

  /** The same value, second by second. */
  function Constant(n: nat): (b: seq<Sample>)
  {
    seq(n, i => Sample(i, 1.0))
  }

  lemma {:induction false} ConstantCompresses(n: nat, i: nat)
    requires i <= n
    ensures Compress(1.0, Constant(n)[i..]) == []
    decreases n - i
  {
    if i < n {
      ConstantCompresses(n, i + 1);
      assert Constant(n)[i..][1..] == Constant(n)[i + 1..];
    }
  }

  lemma ConstantIsLost(responseTime: nat)
    ensures !Restored([Constant(responseTime + 2)], responseTime, responseTime + 2, responseTime + 2)
  {
    var n := responseTime + 2;
    var b := Constant(n);
    assert Flat([b]) == b + Flat([b][1..]) == b;
    ConstantCompresses(n, 1);
    assert Kept([b]) == Compress(NO_VALUE, b) + Kept([b][1..]) == [b[0]];
    assert Reverse([b[0]]) == [b[0]];
    assert LRange([b[0]], n) == [b[0]];
    FilterOne(b[0], 0, n);
    assert Window([b], n, n) == [b[0]];
    var e := Expand([b[0]], responseTime, n);
    assert |e| == n && e[n - 1].value == 0.0 && b[0..n][n - 1].value == 1.0;
  }

  // ---------------------------------------------------------------------------------------
  // The sentinel

  /** Batches of at most `longest` samples, all with values in `values`. */
  ghost predicate Drawn(batches: seq<seq<Sample>>, values: iset<real>, longest: int)
  {
    && (forall i :: 0 <= i < |batches| ==> 1 <= |batches[i]| <= longest)
    && (forall i, j :: 0 <= i < |batches| && 0 <= j < |batches[i]| ==> batches[i][j].value in values)
  }

  ghost predicate AllRestored(values: iset<real>, responseTime: int)
  {
    forall batches, interval, endTime ::
      Drawn(batches, values, responseTime + 1) && EverySecond(Flat(batches))
      ==> Restored(batches, responseTime, interval, endTime)
  }

  /** The sentinel is harmless in every series with these values if and only if it is none of them, or
      the only one, in which case nothing is ever kept. */
  lemma SentinelExactly(values: iset<real>, responseTime: nat)
    ensures AllRestored(values, responseTime) <==> -1.0 !in values || values == iset{-1.0}
  {
    hide Restored, EverySecond, Flat;
    if NO_VALUE !in values || values == iset{NO_VALUE} {
      forall batches, interval, endTime
        | Drawn(batches, values, responseTime + 1) && EverySecond(Flat(batches))
        ensures Restored(batches, responseTime, interval, endTime)
      {
        if NO_VALUE !in values {
          LosslessHistory(batches, responseTime, interval, endTime);
        } else {
          OnlySentinels(batches);
          NothingToRestore(batches, responseTime, interval, endTime);
        }
      }
    } else {
      OtherValue(values);
      var v :| v in values && v != NO_VALUE;
      SentinelIsLost(v, responseTime);
      assert Drawn([[Sample(0, v)], [Sample(1, NO_VALUE)]], values, responseTime + 1);
    }
  }

  lemma OtherValue(values: iset<real>)
    ensures NO_VALUE !in values || values == iset{NO_VALUE} || exists v :: v in values && v != NO_VALUE
  {
    if forall v :: v in values ==> v == NO_VALUE {
      assert forall v :: v in values <==> v in iset{NO_VALUE} && NO_VALUE in values;
    }
  }

  lemma {:induction false} CompressSentinels(b: seq<Sample>)
    requires forall j :: 0 <= j < |b| ==> b[j].value == NO_VALUE
    ensures Compress(NO_VALUE, b) == []
    decreases |b|
  {
    if b != [] { CompressSentinels(b[1..]); }
  }

  lemma {:induction false} OnlySentinels(batches: seq<seq<Sample>>)
    requires forall i, j :: 0 <= i < |batches| && 0 <= j < |batches[i]| ==> batches[i][j].value == NO_VALUE
    ensures Kept(batches) == []
    decreases |batches|
  {
    if batches != [] {
      assert forall j :: 0 <= j < |batches[0]| ==> batches[0][j].value == NO_VALUE;
      CompressSentinels(batches[0]);
      assert forall i :: 0 <= i < |batches| - 1 ==> batches[1..][i] == batches[i + 1];
      OnlySentinels(batches[1..]);
    }
  }

  lemma NothingToRestore(batches: seq<seq<Sample>>, responseTime: int, interval: int, endTime: int)
    requires Kept(batches) == []
    ensures Restored(batches, responseTime, interval, endTime)
  {
    hide Expand, Flat;
    assert LRange([], interval) == [] && Reverse<Sample>([]) == [];
  }

  /** A series that shows it: a batch of one sentinel after a batch of one other value is not kept,
      and its second is shown with the other value or with 0. */
  lemma SentinelIsLost(v: real, responseTime: nat)
    requires v != NO_VALUE
    ensures var batches := [[Sample(0, v)], [Sample(1, NO_VALUE)]];
            EverySecond(Flat(batches)) && !Restored(batches, responseTime, 2, 2)
  {
    hide Expand, Filter, LRange, Kept, Flat;
    var x, y := Sample(0, v), Sample(1, NO_VALUE);
    OneAndSentinel(x, y);
    OneSampleWindow(x);
    ExpandAt([x], responseTime, 2);
    var e := Expand([x], responseTime, 2);
    assert e[1] == Shown([x], responseTime, 1);
    assert e[1].value != y.value && [x, y][0..2][1] == y;
  }

  lemma OneAndSentinel(x: Sample, y: Sample)
    requires x.value != NO_VALUE && y.value == NO_VALUE
    ensures Flat([[x], [y]]) == [x, y] && Kept([[x], [y]]) == [x]
  {
    assert [[x], [y]][1..] == [[y]] && [[y]][1..] == [] && [x][1..] == [] && [y][1..] == [];
    assert Flat([[y]]) == [y] + Flat([]) == [y];
    assert Flat([[x], [y]]) == [x] + [y] == [x, y];
    assert Kept([[y]]) == Compress(NO_VALUE, [y]) + Kept([]) == [];
    assert Kept([[x], [y]]) == Compress(NO_VALUE, [x]) + [] == [x];
  }

  lemma OneSampleWindow(x: Sample)
    requires x.time == 0
    ensures Filter(Reverse(LRange(Reverse([x]), 2)), 0, 2) == [x]
  {
    assert Reverse([x]) == [x] && LRange([x], 2) == [x];
    FilterOne(x, 0, 2);
  }

  // ---------------------------------------------------------------------------------------
  // From the agent's samples to the page

  lemma {:induction false} FilterScales(s: seq<Sample>, counter: Counter, startTime: int, endTime: int)
    ensures Filter(UpTo(Scaled(s, counter), startTime), startTime, endTime)
            == Scaled(Filter(UpTo(s, startTime), startTime, endTime), counter)
  {
    hide Filter, UpTo, Scaled;
    ScaledParts(s, counter);
    ScaledOnes(counter);
    var c := Scaled(s, counter);
    if s == [] {
      NoSample(startTime, endTime);
    } else {
      var x, rest := s[0], Filter(UpTo(s[1..], startTime), startTime, endTime);
      NextSample(s, 0, startTime, endTime);
      NextSample(c, 0, startTime, endTime);
      assert s[0..] == s && c[0..] == c;
      FilterScales(s[1..], counter, startTime, endTime);
      ScaledJoin(if InWindow(x, startTime, endTime) then [x] else [], rest, counter);
      ScaledOne(x, counter);
    }
  }

  lemma ScaledParts(s: seq<Sample>, counter: Counter)
    ensures var c := Scaled(s, counter);
            && |c| == |s|
            && (s != [] ==> c[0] == Sample(s[0].time, Unit(s[0].value, counter)) && c[1..] == Scaled(s[1..], counter))
  {
  }

  lemma ScaledOnes(counter: Counter)
    ensures Scaled([], counter) == []
  {
  }

  /** Reading scaled samples is scaling what is read. */
  lemma ReadScales(s: seq<Sample>, counter: Counter, startTime: int, endTime: int)
    ensures Read(Scaled(s, counter), startTime, endTime) == Scaled(Read(s, startTime, endTime), counter)
  {
    hide Filter, UpTo;
    var n := endTime - startTime;
    assert LRange(Scaled(s, counter), n) == Scaled(LRange(s, n), counter);
    FilterScales(LRange(s, n), counter, startTime, endTime);
  }

  lemma {:induction false} ExpandScales(xs: seq<Sample>, counter: Counter, responseTime: int, endTime: int)
    ensures Expand(Scaled(xs, counter), responseTime, endTime) == Scaled(Expand(xs, responseTime, endTime), counter)
    decreases |xs|
  {
    if xs != [] {
      var c := Scaled(xs, counter);
      var until := if |xs| == 1 then endTime else xs[1].time;
      assert c[1..] == Scaled(xs[1..], counter);
      SegmentScales(xs[0], counter, until, responseTime);
      if |xs| > 1 {
        ExpandScales(xs[1..], counter, responseTime, endTime);
        ScaledJoin(Segment(xs[0], until, responseTime), Expand(xs[1..], responseTime, endTime), counter);
      }
    }
  }

  lemma SegmentScales(x: Sample, counter: Counter, until: int, responseTime: int)
    ensures Segment(Sample(x.time, Unit(x.value, counter)), until, responseTime)
            == Scaled(Segment(x, until, responseTime), counter)
  {
  }

  /** What is recorded batch by batch is shown again, second by second, from the first sample of the
      window to its end; of the processes' Memory counter, the 1024th part. */
  method RecordAndShow(batches: seq<seq<Sample>>, counter: Counter, responseTime: int, interval: int, curTime: int)
    returns (shown: seq<Sample>)
    requires EverySecond(Flat(batches))
    ensures var w := Window(batches, interval, curTime - responseTime);
            (shown == [] <==> w == []) && (shown != [] ==> shown[0].time == w[0].time)
    ensures var f, endTime := Flat(batches), curTime - responseTime;
            Cut(batches, responseTime + 1) || Covered(batches, responseTime) ==>
              shown != [] ==>
                && f != []
                && (endTime <= f[0].time + |f| ==>
                      var d := shown[0].time - f[0].time;
                      && 0 <= d <= d + |shown| <= |f| && f[0].time + d + |shown| == endTime
                      && shown == Scaled(f[d..d + |shown|], counter)
                      && forall j :: 0 <= j < |shown| ==>
                           shown[j].time == f[d + j].time
                           && (if counter == Process("Memory") then 1024.0 * shown[j].value else shown[j].value)
                              == f[d + j].value)
  {
    hide Expand, Read, Filter, Flat, Kept, Window, Covered, Cut, EverySecond;
    var stored := Record(batches, counter);
    shown := GetValueListDetail(stored, responseTime, interval, curTime);
    ghost var endTime := curTime - responseTime;
    KeptPicks(batches);
    WindowIsRead(batches, interval, endTime);
    ReadScales(Reverse(Kept(batches)), counter, endTime - interval, endTime);
    ExpandScales(Window(batches, interval, endTime), counter, responseTime, endTime);
    ShownExactly(batches, responseTime, interval, endTime);
    if Cut(batches, responseTime + 1) { CutIsCovered(batches, responseTime); }
    if Covered(batches, responseTime) {
      RestoredWhenCovered(batches, responseTime, interval, endTime);
      ScaledBack(Expand(Window(batches, interval, endTime), responseTime, endTime), counter);
    }
  }

  lemma WindowIsRead(batches: seq<seq<Sample>>, interval: int, endTime: int)
    requires Ascending(Kept(batches))
    ensures Read(Reverse(Kept(batches)), endTime - interval, endTime) == Window(batches, interval, endTime)
  {
    hide Read, Filter, LRange, Kept;
    NewestFirst(Kept(batches));
    ReadNewestFirst(Reverse(Kept(batches)), endTime - interval, endTime);
  }

  lemma NewestFirst(k: seq<Sample>)
    requires Ascending(k)
    ensures Descending(Reverse(k))
  {
  }

  lemma ShownExactly(batches: seq<seq<Sample>>, responseTime: int, interval: int, endTime: int)
    requires EverySecond(Flat(batches))
    ensures var w := Window(batches, interval, endTime);
            var e := Expand(w, responseTime, endTime);
            && (e == [] <==> w == []) && (e != [] ==> e[0].time == w[0].time)
            && (w != [] ==> Flat(batches) != [])
  {
    hide Window, Kept, Flat, Expand, EverySecond;
    KeptPicks(batches);
    var m, lo, hi := WindowIsStretch(batches, interval, endTime);
    var w := Window(batches, interval, endTime);
    if w != [] {
      StretchExpanded(Kept(batches), m, lo, hi, responseTime, endTime - interval, endTime);
      assert Kept(batches)[lo] in Flat(batches);
    } else {
      ExpandNothing(responseTime, endTime);
    }
  }

  lemma ExpandNothing(responseTime: int, endTime: int)
    ensures Expand([], responseTime, endTime) == []
  {
  }

  // ---------------------------------------------------------------------------------------
  // The fetch limit

  /** The page sees the whole window. */
  ghost predicate Whole(batches: seq<seq<Sample>>, interval: int, endTime: int)
  {
    Window(batches, interval, endTime) == Filter(Kept(batches), endTime - interval, endTime)
  }

  lemma LeftOut(batches: seq<seq<Sample>>, interval: nat, endTime: int)
    ensures var k := Kept(batches);
            var missed := if |k| > interval + 1 then |k| - (interval + 1) else 0;
            && (Whole(batches, interval, endTime) <==> Filter(k[..missed], endTime - interval, endTime) == [])
            && (Filter(k, endTime - interval, endTime) == [] ==> Whole(batches, interval, endTime))
  {
    hide Filter, Kept;
    var k := Kept(batches);
    var m := WindowIsSuffix(k, interval);
    SuffixLength(k, interval, m);
    FilterAppend(k[..m], k[m..], endTime - interval, endTime);
    assert k == k[..m] + k[m..];
  }

  lemma SuffixLength(k: seq<Sample>, interval: nat, m: nat)
    requires m <= |k| && Reverse(LRange(Reverse(k), interval)) == k[m..]
    ensures m == if |k| > interval + 1 then |k| - (interval + 1) else 0
  {
    assert |k[m..]| == |LRange(Reverse(k), interval)|;
  }

  /** LRANGE fetches the newest interval + 1 samples. The window is whole if and only if these are all
      there are, or the newest sample that was not fetched lies before the window, or nothing was kept
      in the window at all. */
  lemma WindowIsWhole(batches: seq<seq<Sample>>, interval: nat, endTime: int)
    requires EverySecond(Flat(batches))
    ensures var k, startTime := Kept(batches), endTime - interval;
            Whole(batches, interval, endTime)
            <==> |k| <= interval + 1 || k[|k| - interval - 2].time < startTime || Filter(k, startTime, endTime) == []
  {
    hide Whole, Kept, Flat, Filter;
    KeptPicks(batches);
    LeftOut(batches, interval, endTime);
    var k, startTime := Kept(batches), endTime - interval;
    if |k| > interval + 1 {
      var last := |k| - interval - 2;
      FilterEmptyExactly(k[..last + 1], startTime, endTime);
      FilterEmptyExactly(k, startTime, endTime);
      assert k[..last + 1][last] == k[last];
      if k[last].time >= startTime && !InWindow(k[last], startTime, endTime) {
        // a sample behind the window was not fetched, so the window comes before all that was
        assert forall j :: last < j < |k| ==> k[last].time < k[j].time;
        assert forall j :: 0 <= j <= last ==> k[..last + 1][j] == k[j];
      }
    } else {
      FilterEmptyExactly(k[..0], startTime, endTime);
    }
  }

  /** If no sample repeats the one before it, all are kept, and what the page misses can be told from
      the times alone: the window is whole if and only if the newest sample is not later than the end
      of the window, or everything was fetched, or the window holds nothing. So the seconds between
      the end of the window and the present are lost at its beginning. */
  lemma EverySecondKept(batches: seq<seq<Sample>>, interval: nat, endTime: int)
    requires EverySecond(Flat(batches)) && Kept(batches) == Flat(batches) != []
    ensures var k := Kept(batches);
            Whole(batches, interval, endTime)
            <==> k[|k| - 1].time <= endTime || |k| <= interval + 1 || interval == 0 || endTime <= k[0].time
  {
    hide Whole, Kept, Flat, Filter;
    WindowIsWhole(batches, interval, endTime);
    var k, startTime := Kept(batches), endTime - interval;
    FilterEmptyExactly(k, startTime, endTime);
    if interval >= 1 && k[0].time < endTime < k[|k| - 1].time {
      var j := endTime - 1 - k[0].time;
      assert k[j].time == endTime - 1 && InWindow(k[j], startTime, endTime);
    }
  }

  /** Four samples, all kept; the window of seconds 0 and 1 is read without second 0. */
  lemma WindowLosesItsBeginning()
    ensures var a, b, c, d := Sample(0, 1.0), Sample(1, 2.0), Sample(2, 3.0), Sample(3, 4.0);
            && Kept([[a, b, c, d]]) == [a, b, c, d]
            && Window([[a, b, c, d]], 2, 2) == [b] && Filter([a, b, c, d], 0, 2) == [a, b]
  {
    var a, b, c, d := Sample(0, 1.0), Sample(1, 2.0), Sample(2, 3.0), Sample(3, 4.0);
    FourKept(a, b, c, d);
    FilterFront(a, [b, c, d]);
    FilterFront(b, [c, d]);
    FilterFront(c, [d]);
    FilterFront(d, []);
    assert [a] + [b] == [a, b] && Filter([], 0, 2) == [];
    assert Reverse([a, b, c, d]) == [d, c, b, a];
    assert LRange([d, c, b, a], 2) == [d, c, b] && Reverse([d, c, b]) == [b, c, d];
  }

  lemma FilterFront(x: Sample, rest: seq<Sample>)
    ensures Filter([x] + rest, 0, 2) == (if InWindow(x, 0, 2) then [x] else []) + Filter(rest, 0, 2)
  {
    assert ([x] + rest)[1..] == rest;
  }

  lemma FourKept(a: Sample, b: Sample, c: Sample, d: Sample)
    requires a.value != NO_VALUE && b.value != a.value && c.value != b.value && d.value != c.value
    ensures Kept([[a, b, c, d]]) == [a, b, c, d]
  {
    var all := [a, b, c, d];
    assert Kept([all]) == Compress(NO_VALUE, all) + Kept([]);
    assert all[1..] == [b, c, d] && [b, c, d][1..] == [c, d] && [c, d][1..] == [d] && [d][1..] == [];
    assert Compress(c.value, [d]) == [d] + Compress(d.value, []);
    assert Compress(b.value, [c, d]) == [c] + [d];
    assert Compress(a.value, [b, c, d]) == [b] + [c, d];
    assert Compress(NO_VALUE, all) == [a] + [b, c, d];
  }
}
