/** Sums and averages over a window, and the pointwise sum of two series. */
module Averages {
  import opened Basics
  import opened TimeSeries

  /** Seconds for which sample `i` counts, if it counts for `cap` seconds at most. */
  function Weight(xs: seq<Sample>, i: nat, cap: int, endTime: int): int
    requires i < |xs|
  {
    Min((if i + 1 < |xs| then xs[i + 1].time else endTime) - xs[i].time, cap)
  }

  function Times(value: real, seconds: int): real { value * seconds as real }

  /** Total weight, and weighted sum, of the samples from index `i` on. */
  function Weights(xs: seq<Sample>, i: nat, cap: int, endTime: int): int
    requires i <= |xs|
    decreases |xs| - i
  {
    if i == |xs| then 0 else Weight(xs, i, cap, endTime) + Weights(xs, i + 1, cap, endTime)
  }

  function Weighted(xs: seq<Sample>, i: nat, cap: int, endTime: int): real
    requires i <= |xs|
    decreases |xs| - i
  {
    if i == |xs| then 0.0 else Times(xs[i].value, Weight(xs, i, cap, endTime)) + Weighted(xs, i + 1, cap, endTime)
  }

  datatype Average = Value(r: real) | ZeroDivision

  /** The quotient of a window, or 0 for an empty one. */
  function Quotient(xs: seq<Sample>, responseTime: int, endTime: int): Average
  {
    var total := Weights(xs, 0, responseTime, endTime);
    if xs == [] then Value(0.0)
    else if total == 0 then ZeroDivision
    else Value(Weighted(xs, 0, responseTime, endTime) / total as real)
  }

  /** GetRecentValue before rounding. On a list that is newest first the division fails exactly for
      a response time of 0, and otherwise the value lies between any bounds of the list. */
  method GetRecentValue(list: seq<Sample>, responseTime: int, interval: int, curTime: int) returns (avg: Average)
    ensures var endTime := curTime - responseTime;
            var xs := Read(list, endTime - interval, endTime);
            && avg == Quotient(xs, responseTime, endTime)
            && (Descending(list) && responseTime >= 0 ==> (avg.ZeroDivision? <==> xs != [] && responseTime == 0))
    ensures Descending(list) && responseTime >= 1 ==>
              forall lo, hi :: Within(list, lo, hi) ==> avg == Value(0.0) || (avg.Value? && lo <= avg.r <= hi)
    ensures Descending(list) && responseTime >= 1 ==>
              var endTime := curTime - responseTime;
              IsMean(avg, Read(list, endTime - interval, endTime), responseTime, endTime)
  {
    hide Weights, Weighted, Read, Within, Proper, IsMean;
    var endTime := curTime - responseTime;
    var xs := GetCounterValue(list, endTime - interval, endTime);
    if |xs| == 0 {
      assert IsMean(Value(0.0), xs, responseTime, endTime) by { EmptyMean(responseTime, endTime); }
      return Value(0.0);
    }
    if Descending(list) && responseTime >= 0 {
      WindowIsProper(list, endTime - interval, endTime);
      DivisionIsSafeExactly(xs, responseTime, endTime);
      if responseTime >= 1 {
        WindowStaysWithin(list, xs, responseTime, endTime);
        QuotientIsMean(xs, responseTime, endTime);
      }
    }
    var result, total := AddUp(xs, responseTime, endTime);
    if total == 0 {
      return ZeroDivision;
    }
    return Value(result / total as real);
  }

  /** The same seconds, all with the value 1. */
  function Ones(xs: seq<Sample>): seq<Sample>
  {
    seq(|xs|, i requires 0 <= i < |xs| => Sample(xs[i].time, 1.0))
  }

  /** The mean of a window: with each sample shown for its own second and responseTime - 1 more, until the
      next one, the sum of what is shown is the mean times the number of seconds in which something is
      shown, which is what a window of ones sums up to. */
  ghost predicate IsMean(avg: Average, xs: seq<Sample>, responseTime: int, endTime: int)
  {
    if xs == [] then avg == Value(0.0)
    else
      && avg.Value? && Sum(Expand(Ones(xs), responseTime - 1, endTime)) >= 1.0
      && avg.r * Sum(Expand(Ones(xs), responseTime - 1, endTime)) == Sum(Expand(xs, responseTime - 1, endTime))
  }

  lemma EmptyMean(responseTime: int, endTime: int)
    ensures IsMean(Value(0.0), [], responseTime, endTime)
  {
  }

  lemma {:induction false} OnesWeigh(xs: seq<Sample>, i: nat, cap: int, endTime: int)
    requires i <= |xs|
    ensures Weighted(Ones(xs), i, cap, endTime) == Weights(xs, i, cap, endTime) as real
    decreases |xs| - i
  {
    if i < |xs| { OnesWeigh(xs, i + 1, cap, endTime); }
  }

  lemma QuotientIsMean(xs: seq<Sample>, responseTime: int, endTime: int)
    requires Proper(xs, endTime) && responseTime >= 1
    ensures IsMean(Quotient(xs, responseTime, endTime), xs, responseTime, endTime)
  {
    hide Weights, Weighted, Sum, Expand;
    WeightsBound(xs, 0, responseTime, endTime);
    ExpandSum(xs, 0, responseTime - 1, endTime);
    ExpandSum(Ones(xs), 0, responseTime - 1, endTime);
    OnesWeigh(xs, 0, responseTime, endTime);
    assert xs[0..] == xs && Ones(xs)[0..] == Ones(xs);
    TimesBack(Weighted(xs, 0, responseTime, endTime), Weights(xs, 0, responseTime, endTime));
  }

  lemma TimesBack(b: real, seconds: int)
    requires seconds >= 1
    ensures b / seconds as real * seconds as real == b
  {
  }

  /** Two samples: 1.0 shown for two seconds and 9.0 for three. */
  lemma KnownAverage()
    ensures Quotient([Sample(10, 1.0), Sample(12, 9.0)], 5, 15) == Value(5.8)
  {
    var xs := [Sample(10, 1.0), Sample(12, 9.0)];
    assert Weight(xs, 0, 5, 15) == 2 && Weight(xs, 1, 5, 15) == 3;
    assert Weights(xs, 2, 5, 15) == 0 && Weights(xs, 1, 5, 15) == 3 && Weights(xs, 0, 5, 15) == 5;
    assert Weighted(xs, 2, 5, 15) == 0.0 && Weighted(xs, 1, 5, 15) == 27.0 && Weighted(xs, 0, 5, 15) == 29.0;
  }

  ghost predicate Within(xs: seq<Sample>, lo: real, hi: real)
  {
    forall i :: 0 <= i < |xs| ==> lo <= xs[i].value <= hi
  }

  lemma WindowStaysWithin(list: seq<Sample>, xs: seq<Sample>, responseTime: int, endTime: int)
    requires Proper(xs, endTime) && responseTime >= 1 && forall x :: x in xs ==> x in list
    ensures forall lo, hi :: Within(list, lo, hi) ==>
              var total := Weights(xs, 0, responseTime, endTime);
              total != 0 && lo <= Weighted(xs, 0, responseTime, endTime) / total as real <= hi
  {
    hide Weights, Weighted;
    forall lo, hi | Within(list, lo, hi)
      ensures var total := Weights(xs, 0, responseTime, endTime);
              total != 0 && lo <= Weighted(xs, 0, responseTime, endTime) / total as real <= hi
    {
      forall j | 0 <= j < |xs| ensures lo <= xs[j].value <= hi {
        assert xs[j] in list;
      }
      AverageIsBetween(xs, responseTime, endTime, lo, hi);
    }
  }

  /** One sample and a response time of 0. */
  lemma ZeroResponseTime()
    ensures Read([Sample(0, 1.0)], 0, 1) == [Sample(0, 1.0)] && Quotient([Sample(0, 1.0)], 0, 1) == ZeroDivision
  {
    var x := Sample(0, 1.0);
    assert LRange([x], 1) == [x] && [x][1..] == [];
    assert UpTo([x], 0) == [x] + UpTo([], 0) == [x];
    FilterOne(x, 0, 1);
    assert Read([x], 0, 1) == [x];
    assert Proper([x], 1);
    NoWeights([x], 0, 1);
  }

  /** The window of a list that is newest first. */
  lemma WindowIsProper(list: seq<Sample>, startTime: int, endTime: int)
    requires Descending(list)
    ensures var xs := Read(list, startTime, endTime);
            (xs != [] ==> Proper(xs, endTime)) && forall x :: x in xs ==> x in list && InWindow(x, startTime, endTime)
  {
    hide Filter;
    var s := Reverse(LRange(list, endTime - startTime));
    ReadNewestFirst(list, startTime, endTime);
    var lo, hi := FilterIsSlice(s, startTime, endTime);
    forall x | x in s[lo..hi] ensures x in list && InWindow(x, startTime, endTime) {
      var i :| 0 <= i < |s[lo..hi]| && s[lo..hi][i] == x;
      assert x == s[lo + i] && x in s;
    }
  }

  /** The loop over the samples, and the last sample. */
  method AddUp(xs: seq<Sample>, responseTime: int, endTime: int) returns (result: real, total: int)
    requires xs != []
    ensures result == Weighted(xs, 0, responseTime, endTime) && total == Weights(xs, 0, responseTime, endTime)
  {
    result, total := 0.0, 0;
    var i := 0;
    while i < |xs| - 1
      invariant 0 <= i <= |xs| - 1
      invariant result + Weighted(xs, i, responseTime, endTime) == Weighted(xs, 0, responseTime, endTime)
      invariant total + Weights(xs, i, responseTime, endTime) == Weights(xs, 0, responseTime, endTime)
    {
      var time := xs[i + 1].time - xs[i].time;
      if time > responseTime {
        time := responseTime;
      }
      assert time == Weight(xs, i, responseTime, endTime);
      result := result + xs[i].value * time as real;
      total := total + time;
      i := i + 1;
    }
    var time := endTime - xs[i].time;
    if time > responseTime {
      time := responseTime;
    }
    assert time == Weight(xs, i, responseTime, endTime);
    result := result + xs[i].value * time as real;
    total := total + time;
  }

  /** Ascending samples that all lie before `endTime`. */
  ghost predicate Proper(xs: seq<Sample>, endTime: int)
  {
    xs != [] && Ascending(xs) && xs[|xs| - 1].time < endTime
  }

  /** Every weight is at least one second, and together they do not exceed the time covered. */
  lemma {:induction false} WeightsBound(xs: seq<Sample>, i: nat, cap: int, endTime: int)
    requires Proper(xs, endTime) && i <= |xs| && cap >= 1
    ensures |xs| - i <= Weights(xs, i, cap, endTime)
    ensures i < |xs| ==> Weights(xs, i, cap, endTime) <= endTime - xs[i].time
    decreases |xs| - i
  {
    if i < |xs| { WeightsBound(xs, i + 1, cap, endTime); }
  }

  /** With responseTime 0 every weight is 0. */
  lemma {:induction false} NoWeights(xs: seq<Sample>, i: nat, endTime: int)
    requires Proper(xs, endTime) && i <= |xs|
    ensures Weights(xs, i, 0, endTime) == 0
    decreases |xs| - i
  {
    if i < |xs| { NoWeights(xs, i + 1, endTime); }
  }

  /** The division fails if and only if responseTime is 0. */
  lemma DivisionIsSafeExactly(xs: seq<Sample>, responseTime: nat, endTime: int)
    requires Proper(xs, endTime)
    ensures Weights(xs, 0, responseTime, endTime) != 0 <==> responseTime >= 1
  {
    if responseTime == 0 { NoWeights(xs, 0, endTime); } else { WeightsBound(xs, 0, responseTime, endTime); }
  }

  lemma {:induction false} WeightedBound(xs: seq<Sample>, i: nat, cap: int, endTime: int, lo: real, hi: real)
    requires Proper(xs, endTime) && i <= |xs| && cap >= 1
    requires forall j :: 0 <= j < |xs| ==> lo <= xs[j].value <= hi
    ensures Times(lo, Weights(xs, i, cap, endTime)) <= Weighted(xs, i, cap, endTime)
    ensures Weighted(xs, i, cap, endTime) <= Times(hi, Weights(xs, i, cap, endTime))
    decreases |xs| - i
  {
    if i < |xs| {
      WeightedBound(xs, i + 1, cap, endTime, lo, hi);
      var w, ws := Weight(xs, i, cap, endTime), Weights(xs, i + 1, cap, endTime);
      Between(lo, xs[i].value, w);
      Between(xs[i].value, hi, w);
      Distribute(lo, w, ws);
      Distribute(hi, w, ws);
    }
  }

  lemma Distribute(a: real, m: int, n: int)
    ensures Times(a, m + n) == Times(a, m) + Times(a, n)
  {
    assert (m + n) as real == m as real + n as real;
  }

  lemma Between(a: real, b: real, w: int)
    requires a <= b && w >= 0
    ensures Times(a, w) <= Times(b, w)
  {
    assert b * w as real - a * w as real == (b - a) * w as real;
  }

  /** The average of a window divides by a total between 1 and the time covered, and lies between
      the smallest and the largest sample. */
  lemma AverageIsBetween(xs: seq<Sample>, responseTime: int, endTime: int, lo: real, hi: real)
    requires Proper(xs, endTime) && responseTime >= 1
    requires forall j :: 0 <= j < |xs| ==> lo <= xs[j].value <= hi
    ensures var total := Weights(xs, 0, responseTime, endTime);
            && 1 <= total <= endTime - xs[0].time
            && lo <= Weighted(xs, 0, responseTime, endTime) / total as real <= hi
  {
    hide Weights, Weighted;
    WeightsBound(xs, 0, responseTime, endTime);
    WeightedBound(xs, 0, responseTime, endTime, lo, hi);
    DivideBetween(lo, hi, Weighted(xs, 0, responseTime, endTime), Weights(xs, 0, responseTime, endTime));
  }

  lemma DivideBetween(lo: real, hi: real, b: real, seconds: int)
    requires seconds > 0 && Times(lo, seconds) <= b <= Times(hi, seconds)
    ensures lo <= b / seconds as real <= hi
  {
    var w := seconds as real;
    var q := b / w;
    assert q * w == b;
    assert (q - lo) * w == q * w - lo * w && (hi - q) * w == hi * w - q * w;
    if q < lo { NegativeProduct(q - lo, w); }
    if q > hi { NegativeProduct(hi - q, w); }
  }

  lemma NegativeProduct(x: real, w: real)
    requires x < 0.0 && w > 0.0
    ensures x * w < 0.0
  {
  }

  // ---------------------------------------------------------------------------------------
  // The sum of an expanded history

  function Sum(xs: seq<Sample>): real
  {
    if xs == [] then 0.0 else xs[0].value + Sum(xs[1..])
  }

  lemma {:induction false} SumAppend(a: seq<Sample>, b: seq<Sample>)
    ensures Sum(a + b) == Sum(a) + Sum(b)
  {
    if a == [] {
      assert a + b == b;
    } else {
      assert (a + b)[0] == a[0] && (a + b)[1..] == a[1..] + b;
      SumAppend(a[1..], b);
    }
  }

  /** A sample is shown for the seconds up to `until`, but for responseTime + 1 of them at most. */
  lemma {:induction false} SegmentSum(x: Sample, until: int, responseTime: nat)
    requires until >= x.time
    ensures Sum(Segment(x, until, responseTime)) == Times(x.value, Min(until - x.time, responseTime + 1))
    decreases until - x.time
  {
    if until > x.time {
      SegmentSum(x, until - 1, responseTime);
      var last := Sample(until - 1, if until - 1 - x.time <= responseTime then x.value else 0.0);
      assert Segment(x, until, responseTime) == Segment(x, until - 1, responseTime) + [last];
      SumAppend(Segment(x, until - 1, responseTime), [last]);
      SumOne(last);
      Distribute(x.value, Min(until - 1 - x.time, responseTime + 1), 1);
    } else {
      assert Segment(x, until, responseTime) == [];
    }
  }

  lemma SumOne(x: Sample)
    ensures Sum([x]) == x.value
  {
    assert [x][1..] == [];
  }

  /** The expanded history sums up each sample for the seconds until the next one, but for no more
      than responseTime + 1 of them. */
  lemma {:induction false} ExpandSum(xs: seq<Sample>, i: nat, responseTime: nat, endTime: int)
    requires Proper(xs, endTime) && i <= |xs|
    ensures Sum(Expand(xs[i..], responseTime, endTime)) == Weighted(xs, i, responseTime + 1, endTime)
    decreases |xs| - i
  {
    if i + 1 < |xs| {
      ExpandSum(xs, i + 1, responseTime, endTime);
      SegmentSum(xs[i], xs[i + 1].time, responseTime);
      ExpandStep(xs, i, responseTime, endTime);
      SumAppend(Segment(xs[i], xs[i + 1].time, responseTime), Expand(xs[i + 1..], responseTime, endTime));
    } else if i < |xs| {
      SegmentSum(xs[i], endTime, responseTime);
      ExpandLast(xs, responseTime, endTime);
    }
  }

  // ---------------------------------------------------------------------------------------
  // CombineList

  /** Value of the dictionary made from `l` at second `t`: the last entry counts. */
  function Last(l: seq<Sample>, t: int): real
  {
    if l == [] then 0.0 else if l[|l| - 1].time == t then l[|l| - 1].value else Last(l[..|l| - 1], t)
  }

  /** Sum of the entries of `l` at second `t`. */
  function At(l: seq<Sample>, t: int): real
  {
    if l == [] then 0.0 else At(l[..|l| - 1], t) + if l[|l| - 1].time == t then l[|l| - 1].value else 0.0
  }

  ghost function Keys(l: seq<Sample>): set<int>
  {
    set i | 0 <= i < |l| :: l[i].time
  }

  /** The dictionary `d` as a list, sorted by key. */
  method SortedItems(d: map<int, real>) returns (result: seq<Sample>)
    ensures Ascending(result) && Keys(result) == d.Keys
    ensures forall x :: x in result ==> x.time in d && x.value == d[x.time]
  {
    result := [];
    var left := d.Keys;
    while left != {}
      invariant left <= d.Keys && Keys(result) == d.Keys - left
      invariant Ascending(result) && forall x :: x in result ==> x.time in d && x.value == d[x.time]
      invariant forall i, t :: 0 <= i < |result| && t in left ==> result[i].time < t
      decreases left
    {
      var t := Smallest(left);
      ghost var before := result;
      result := result + [Sample(t, d[t])];
      left := left - {t};
      assert Keys(result) == Keys(before) + {t} by {
        assert forall i :: 0 <= i < |before| ==> result[i] == before[i];
        assert result[|before|].time == t;
      }
    }
  }

  method Smallest(s: set<int>) returns (m: int)
    requires s != {}
    ensures m in s && forall x :: x in s ==> m <= x
  {
    HasMember(s);
    m :| m in s;
    var rest := s - {m};
    while rest != {}
      invariant m in s && rest <= s && forall x :: x in s && x !in rest ==> m <= x
      decreases |rest|
    {
      HasMember(rest);
      var x :| x in rest;
      if x < m {
        m := x;
      }
      rest := rest - {x};
    }
  }

  lemma HasMember(s: set<int>)
    ensures s == {} || exists x :: x in s
  {
    if forall x :: x !in s {
      assert s == {};
    }
  }

  /** One entry for each second of either list, in order, with the sum of both. */
  ghost predicate Combined(result: seq<Sample>, l1: seq<Sample>, l2: seq<Sample>)
  {
    && Ascending(result) && Keys(result) == Keys(l1) + Keys(l2)
    && forall x :: x in result ==> x.value == Last(l1, x.time) + At(l2, x.time)
  }

  /** Of two histories with one entry a second: where both have an entry, the sum; where one has, that
      one; and nothing else. */
  ghost predicate SecondBySecond(result: seq<Sample>, l1: seq<Sample>, l2: seq<Sample>)
  {
    && (forall x, y :: x in l1 && y in l2 && x.time == y.time ==> Sample(x.time, x.value + y.value) in result)
    && (forall x :: x in l1 && x.time !in Keys(l2) ==> x in result)
    && (forall y :: y in l2 && y.time !in Keys(l1) ==> y in result)
    && (forall x :: x in result ==> x.time in Keys(l1) || x.time in Keys(l2))
  }

  lemma {:induction false} ValueAt(l: seq<Sample>, x: Sample)
    requires Ascending(l) && x in l
    ensures x.time in Keys(l) && Last(l, x.time) == x.value && At(l, x.time) == x.value
  {
    var k := |l| - 1;
    var i :| 0 <= i < |l| && l[i] == x;
    if i < k {
      assert l[..k][i] == x;
      ValueAt(l[..k], x);
    } else {
      forall j | 0 <= j < k ensures l[..k][j].time != x.time { assert l[j].time < l[k].time; }
      Absent(l[..k], x.time);
    }
  }

  lemma InResult(result: seq<Sample>, l1: seq<Sample>, l2: seq<Sample>, t: int)
    requires Combined(result, l1, l2) && (t in Keys(l1) || t in Keys(l2))
    ensures Sample(t, Last(l1, t) + At(l2, t)) in result
  {
    hide Keys, Last, At, Ascending;
    assert t in Keys(result);
    var i := EntryOfKey(result, t);
    assert result[i] in result;
  }

  lemma EntryOfKey(l: seq<Sample>, t: int) returns (i: nat)
    requires t in Keys(l)
    ensures i < |l| && l[i].time == t
  {
    i :| 0 <= i < |l| && l[i].time == t;
  }

  lemma CombinedSecondBySecond(result: seq<Sample>, l1: seq<Sample>, l2: seq<Sample>)
    requires Combined(result, l1, l2) && Ascending(l1) && Ascending(l2)
    ensures SecondBySecond(result, l1, l2)
  {
    hide Last, At;
    forall x, y | x in l1 && y in l2 && x.time == y.time ensures Sample(x.time, x.value + y.value) in result {
      ValueAt(l1, x);
      ValueAt(l2, y);
      InResult(result, l1, l2, x.time);
    }
    forall x | x in l1 && x.time !in Keys(l2) ensures x in result {
      ValueAt(l1, x);
      Absent(l2, x.time);
      InResult(result, l1, l2, x.time);
    }
    forall y | y in l2 && y.time !in Keys(l1) ensures y in result {
      ValueAt(l2, y);
      Absent(l1, y.time);
      InResult(result, l1, l2, y.time);
    }
    forall x | x in result ensures x.time in Keys(l1) || x.time in Keys(l2) {
      assert x.time in Keys(result);
    }
  }

  method CombineList(l1: seq<Sample>, l2: seq<Sample>) returns (result: seq<Sample>)
    ensures Combined(result, l1, l2)
    ensures Ascending(l1) && Ascending(l2) ==> SecondBySecond(result, l1, l2)
  {
    var d: map<int, real> := map[];
    var i := 0;
    while i < |l1|
      invariant 0 <= i <= |l1| && d.Keys == Keys(l1[..i])
      invariant forall t :: t in d ==> d[t] == Last(l1[..i], t)
    {
      KeysSnoc(l1, i);
      d := d[l1[i].time := l1[i].value];
      i := i + 1;
    }
    assert l1[..i] == l1;
    i := 0;
    while i < |l2|
      invariant 0 <= i <= |l2| && d.Keys == Keys(l1) + Keys(l2[..i])
      invariant forall t :: t in d ==> d[t] == Last(l1, t) + At(l2[..i], t)
    {
      KeysSnoc(l2, i);
      var key := l2[i].time;
      if key in d {
        d := d[key := d[key] + l2[i].value];
      } else {
        Absent(l1, key);
        Absent(l2[..i], key);
        d := d[key := l2[i].value];
      }
      i := i + 1;
    }
    assert l2[..i] == l2;
    result := SortedItems(d);
    if Ascending(l1) && Ascending(l2) { CombinedSecondBySecond(result, l1, l2); }
  }

  lemma KeysSnoc(l: seq<Sample>, i: nat)
    requires i < |l|
    ensures Keys(l[..i + 1]) == Keys(l[..i]) + {l[i].time}
    ensures l[..i + 1][..i] == l[..i]
  {
    assert forall j :: 0 <= j < i ==> l[..i + 1][j] == l[..i][j];
    assert l[..i + 1][i].time in Keys(l[..i + 1]);
    forall t | t in Keys(l[..i]) ensures t in Keys(l[..i + 1]) {
      var j :| 0 <= j < i && l[..i][j].time == t;
      assert l[..i + 1][j].time == t;
    }
  }

  lemma {:induction false} Absent(l: seq<Sample>, t: int)
    requires t !in Keys(l)
    ensures Last(l, t) == 0.0 && At(l, t) == 0.0
  {
    if l != [] {
      var k := |l| - 1;
      assert l[k].time in Keys(l);
      assert l[..k + 1] == l;
      KeysSnoc(l, k);
      Absent(l[..k], t);
    }
  }

  /** On lists with one entry a second, such as expanded histories, the sum is the same for both. */
  lemma {:induction false} LastIsAt(l: seq<Sample>, t: int)
    requires Ascending(l)
    ensures Last(l, t) == At(l, t)
  {
    if l != [] {
      var k := |l| - 1;
      if l[k].time == t {
        assert t !in Keys(l[..k]) by {
          forall j | 0 <= j < k ensures l[..k][j].time != t { assert l[j].time < l[k].time; }
        }
        Absent(l[..k], t);
      } else {
        LastIsAt(l[..k], t);
      }
    }
  }

  /** Nothing else is left open: two lists that combine the same histories are the same. */
  lemma CombinedIsUnique(r: seq<Sample>, s: seq<Sample>, l1: seq<Sample>, l2: seq<Sample>)
    requires Combined(r, l1, l2) && Combined(s, l1, l2)
    ensures r == s
  {
    forall x, y | x in r && y in s && x.time == y.time ensures x == y { }
    SameSeries(r, s);
  }

  /** So combining expanded histories, in either order, gives the same list. */
  lemma CombineCommutes(r: seq<Sample>, s: seq<Sample>, l1: seq<Sample>, l2: seq<Sample>)
    requires Ascending(l1) && Ascending(l2)
    requires Combined(r, l1, l2) && Combined(s, l2, l1)
    ensures r == s
  {
    forall x | x in s ensures x.value == Last(l1, x.time) + At(l2, x.time) {
      LastIsAt(l1, x.time);
      LastIsAt(l2, x.time);
    }
    CombinedIsUnique(r, s, l1, l2);
  }

  /** An ascending series is determined by its seconds and their values. */
  lemma {:induction false} SameSeries(r: seq<Sample>, s: seq<Sample>)
    requires Ascending(r) && Ascending(s) && Keys(r) == Keys(s)
    requires forall x, y :: x in r && y in s && x.time == y.time ==> x == y
    ensures r == s
    decreases |r|
  {
    hide Keys, Ascending;
    NoKeys(r);
    NoKeys(s);
    if r != [] && s != [] {
      var m, n := |r| - 1, |s| - 1;
      NewestKey(r);
      NewestKey(s);
      assert r[m].time == s[n].time && r[m] in r && s[n] in s;
      forall x, y | x in r[..m] && y in s[..n] && x.time == y.time ensures x == y {
        assert x in r && y in s;
      }
      SameSeries(r[..m], s[..n]);
      assert r == r[..m] + [r[m]] && s == s[..n] + [s[n]];
    }
  }

  lemma NoKeys(l: seq<Sample>)
    ensures Keys(l) == {} <==> l == []
  {
    if l != [] { assert l[0].time in Keys(l); }
  }

  /** The last sample has the greatest time, and the others have the other times. */
  lemma NewestKey(l: seq<Sample>)
    requires Ascending(l) && l != []
    ensures var last := l[|l| - 1].time;
            && Ascending(l[..|l| - 1]) && last in Keys(l) && (forall t :: t in Keys(l) ==> t <= last)
            && Keys(l[..|l| - 1]) == Keys(l) - {last}
  {
    var n := |l| - 1;
    assert l[..n + 1] == l;
    KeysSnoc(l, n);
    assert forall j :: 0 <= j < n ==> l[..n][j].time < l[n].time;
  }
}
