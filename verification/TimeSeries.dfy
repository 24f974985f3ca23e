/** The life of a counter: the agent drops repeated samples batch by batch, Redis keeps the rest
    newest first, and the web side cuts out a window, fills the gaps again, and averages. Values are
    exact reals. */
module TimeSeries {
  import opened Basics

  datatype Sample = Sample(time: int, value: real)

  /** The value a batch is compared with before its first sample. */
  const NO_VALUE := -1.0

  function Reverse<T>(s: seq<T>): seq<T>
  {
    seq(|s|, i requires 0 <= i < |s| => s[|s| - 1 - i])
  }

  /** Times grow from sample to sample. */
  ghost predicate Ascending(s: seq<Sample>)
  {
    forall i, j :: 0 <= i < j < |s| ==> s[i].time < s[j].time
  }

  // ---------------------------------------------------------------------------------------
  // The agent: SendProcessInfo, SendMachineInfo

  function Compress(cur: real, logs: seq<Sample>): seq<Sample>
    decreases |logs|
  {
    if logs == [] then []
    else if cur != logs[0].value then [logs[0]] + Compress(logs[0].value, logs[1..])
    else Compress(cur, logs[1..])
  }

  /** One batch of one counter, as it is put into the message. */
  method SendLogs(logs: seq<Sample>) returns (sent: seq<Sample>)
    ensures sent == Compress(NO_VALUE, logs)
  {
    sent := [];
    var curValue := NO_VALUE;
    var i := 0;
    while i < |logs|
      invariant 0 <= i <= |logs|
      invariant sent + Compress(curValue, logs[i..]) == Compress(NO_VALUE, logs)
    {
      assert logs[i..][1..] == logs[i + 1..];
      if curValue != logs[i].value {
        sent := sent + [logs[i]];
        curValue := logs[i].value;
      }
      i := i + 1;
    }
  }

  // ---------------------------------------------------------------------------------------
  // The server: SaveProcessInfo, SaveMachineInfo

  /** A counter of the processes or of the machine; both can have one that is called Memory. */
  datatype Counter = Process(name: string) | Machine(name: string)

  /** The value that is stored: the Memory counter of the processes is kept in KB. */
  function Unit(value: real, counter: Counter): real
  {
    if counter == Process("Memory") then value / 1024.0 else value
  }

  function Scaled(s: seq<Sample>, counter: Counter): seq<Sample>
  {
    seq(|s|, i requires 0 <= i < |s| => Sample(s[i].time, Unit(s[i].value, counter)))
  }

  /** LPUSH of each sample: the list ends up newest first. */
  method SaveLogs(key: seq<Sample>, logs: seq<Sample>, counter: Counter) returns (stored: seq<Sample>)
    ensures stored == Scaled(Reverse(logs), counter) + key
    ensures |stored| == |logs| + |key| && stored[|logs|..] == key
    ensures forall i :: 0 <= i < |logs| ==>
              var x := stored[|logs| - 1 - i];
              x.time == logs[i].time
              && (if counter == Process("Memory") then 1024.0 * x.value else x.value) == logs[i].value
  {
    hide Scaled, Reverse;
    ScaledNothing(counter);
    assert [] + key == key;
    stored := key;
    var j := 0;
    while j < |logs|
      invariant 0 <= j <= |logs|
      invariant stored == Scaled(Reverse(logs[..j]), counter) + key
    {
      var value := logs[j].value;
      if counter == Process("Memory") {
        value := value / 1024.0;
      }
      stored := [Sample(logs[j].time, value)] + stored;
      ReverseSnoc(logs[..j], logs[j]);
      ScaledJoin([logs[j]], Reverse(logs[..j]), counter);
      ScaledOne(logs[j], counter);
      Associative([Sample(logs[j].time, value)], Scaled(Reverse(logs[..j]), counter), key);
      assert logs[..j + 1] == logs[..j] + [logs[j]];
      j := j + 1;
    }
    assert logs[..j] == logs;
    StoredValues(logs, counter, key);
  }

  lemma ScaledNothing(counter: Counter)
    ensures Scaled(Reverse([]), counter) == []
  {
  }

  lemma ScaledOne(x: Sample, counter: Counter)
    ensures Scaled([x], counter) == [Sample(x.time, Unit(x.value, counter))]
  {
  }

  lemma StoredValues(logs: seq<Sample>, counter: Counter, key: seq<Sample>)
    ensures var stored := Scaled(Reverse(logs), counter) + key;
            && |stored| == |logs| + |key| && stored[|logs|..] == key
            && forall i :: 0 <= i < |logs| ==>
                 var x := stored[|logs| - 1 - i];
                 x.time == logs[i].time
                 && (if counter == Process("Memory") then 1024.0 * x.value else x.value) == logs[i].value
  {
    hide Scaled;
    ScaledBack(Reverse(logs), counter);
  }

  lemma ScaledBack(s: seq<Sample>, counter: Counter)
    ensures var c := Scaled(s, counter);
            |c| == |s| && forall i :: 0 <= i < |s| ==>
              c[i].time == s[i].time
              && (if counter == Process("Memory") then 1024.0 * c[i].value else c[i].value) == s[i].value
  {
  }

  lemma ScaledJoin(a: seq<Sample>, b: seq<Sample>, counter: Counter)
    ensures Scaled(a + b, counter) == Scaled(a, counter) + Scaled(b, counter)
  {
  }

  lemma ReverseSnoc<T>(s: seq<T>, x: T)
    ensures Reverse(s + [x]) == [x] + Reverse(s)
  {
  }

  lemma ReverseAppend<T>(a: seq<T>, b: seq<T>)
    ensures Reverse(a + b) == Reverse(b) + Reverse(a)
  {
  }

  /** What Redis holds after the batches have been compressed, sent and saved one by one. */
  function Kept(batches: seq<seq<Sample>>): seq<Sample>
  {
    if batches == [] then [] else Compress(NO_VALUE, batches[0]) + Kept(batches[1..])
  }

  method Record(batches: seq<seq<Sample>>, counter: Counter) returns (stored: seq<Sample>)
    ensures stored == Scaled(Reverse(Kept(batches)), counter)
  {
    stored := [];
    var i := 0;
    while i < |batches|
      invariant 0 <= i <= |batches|
      invariant stored == Scaled(Reverse(Kept(batches[..i])), counter)
    {
      var sent := SendLogs(batches[i]);
      ScaledJoin(Reverse(sent), Reverse(Kept(batches[..i])), counter);
      stored := SaveLogs(stored, sent, counter);
      KeptSnoc(batches[..i], batches[i]);
      assert batches[..i + 1] == batches[..i] + [batches[i]];
      ReverseAppend(Kept(batches[..i]), sent);
      i := i + 1;
    }
    assert batches[..i] == batches;
  }

  lemma {:induction false} KeptSnoc(batches: seq<seq<Sample>>, b: seq<Sample>)
    ensures Kept(batches + [b]) == Kept(batches) + Compress(NO_VALUE, b)
  {
    if batches == [] {
      assert batches + [b] == [b] && [b][1..] == [];
      assert Kept([b]) == Compress(NO_VALUE, b) + Kept([]);
    } else {
      assert (batches + [b])[0] == batches[0] && (batches + [b])[1..] == batches[1..] + [b];
      KeptSnoc(batches[1..], b);
    }
  }

  // ---------------------------------------------------------------------------------------
  // The web side: GetCounterValue

  /** LRANGE key 0 stop: a negative `stop` counts from the end. */
  function LRange(list: seq<Sample>, stop: int): seq<Sample>
  {
    var last := if stop < 0 then |list| + stop else stop;
    if last < 0 then [] else list[..Min(last + 1, |list|)]
  }

  predicate InWindow(x: Sample, startTime: int, endTime: int) { startTime <= x.time < endTime }

  /** The samples of the window, in the order in which they come. */
  function Filter(s: seq<Sample>, startTime: int, endTime: int): seq<Sample>
  {
    if s == [] then []
    else (if InWindow(s[0], startTime, endTime) then [s[0]] else []) + Filter(s[1..], startTime, endTime)
  }

  lemma {:induction false} FilterAppend(a: seq<Sample>, b: seq<Sample>, startTime: int, endTime: int)
    ensures Filter(a + b, startTime, endTime) == Filter(a, startTime, endTime) + Filter(b, startTime, endTime)
  {
    if a == [] {
      assert a + b == b;
    } else {
      assert (a + b)[0] == a[0] && (a + b)[1..] == a[1..] + b;
      FilterAppend(a[1..], b, startTime, endTime);
    }
  }

  lemma {:induction false} FilterReverse(s: seq<Sample>, startTime: int, endTime: int)
    ensures Filter(Reverse(s), startTime, endTime) == Reverse(Filter(s, startTime, endTime))
  {
    if s != [] {
      var x := s[0];
      FilterAppend(Reverse(s[1..]), [x], startTime, endTime);
      FilterReverse(s[1..], startTime, endTime);
      assert Reverse(s) == Reverse(s[1..]) + [x] && s == [x] + s[1..];
      ReverseAppend(Filter([x], startTime, endTime), Filter(s[1..], startTime, endTime));
      FilterOne(x, startTime, endTime);
    }
  }

  lemma FilterOne(x: Sample, startTime: int, endTime: int)
    ensures Filter([x], startTime, endTime) == if InWindow(x, startTime, endTime) then [x] else []
    ensures Reverse(Filter([x], startTime, endTime)) == Filter([x], startTime, endTime)
  {
    assert [x][1..] == [];
  }

  /** Exactly samples outside the window leave nothing. */
  lemma {:induction false} FilterEmptyExactly(s: seq<Sample>, startTime: int, endTime: int)
    ensures Filter(s, startTime, endTime) == [] <==> forall j :: 0 <= j < |s| ==> !InWindow(s[j], startTime, endTime)
  {
    if s != [] {
      FilterEmptyExactly(s[1..], startTime, endTime);
      assert forall j :: 1 <= j < |s| ==> s[j] == s[1..][j - 1];
    }
  }

  /** The samples in front of the first one that lies before the window. */
  function UpTo(s: seq<Sample>, startTime: int): (r: seq<Sample>)
    ensures r <= s && (forall i :: 0 <= i < |r| ==> s[i].time >= startTime)
    ensures |r| < |s| ==> s[|r|].time < startTime
  {
    if s == [] || s[0].time < startTime then [] else [s[0]] + UpTo(s[1..], startTime)
  }

  /** What GetCounterValue returns for any list at all. */
  function Read(list: seq<Sample>, startTime: int, endTime: int): seq<Sample>
  {
    Reverse(Filter(UpTo(LRange(list, endTime - startTime), startTime), startTime, endTime))
  }

  /** Of a list that is newest first, exactly the samples of the window are returned that are among the
      newest endTime - startTime + 1, oldest first. */
  ghost predicate WindowOf(result: seq<Sample>, list: seq<Sample>, startTime: int, endTime: int)
  {
    && Ascending(result)
    && forall x :: x in result <==>
         exists i :: 0 <= i < |list| && i <= endTime - startTime && list[i] == x && startTime <= x.time < endTime
  }

  /** GetCounterValue: the samples of the window, oldest first. */
  method GetCounterValue(list: seq<Sample>, startTime: int, endTime: int) returns (result: seq<Sample>)
    ensures result == Read(list, startTime, endTime)
    ensures Descending(list) && startTime <= endTime ==> WindowOf(result, list, startTime, endTime)
  {
    hide Filter, UpTo, LRange, Reverse, WindowOf;
    if Descending(list) && startTime <= endTime { ReadExactly(list, startTime, endTime); }
    var datalist := LRange(list, endTime - startTime);
    result := [];
    assert datalist[0..] == datalist;
    var i := 0;
    while i < |datalist|
      invariant 0 <= i <= |datalist|
      invariant result + Filter(UpTo(datalist[i..], startTime), startTime, endTime)
                == Filter(UpTo(datalist, startTime), startTime, endTime)
    {
      var curTime := datalist[i].time;
      NextSample(datalist, i, startTime, endTime);
      Associative(result, [datalist[i]], Filter(UpTo(datalist[i + 1..], startTime), startTime, endTime));
      if startTime <= curTime && endTime > curTime {
        result := result + [datalist[i]];
      }
      if startTime > curTime {
        break;
      }
      i := i + 1;
    }
    assert i == |datalist| ==> datalist[i..] == [];
    NoSample(startTime, endTime);
    assert result + [] == result;
    result := Reverse(result);
  }

  lemma NextSample(s: seq<Sample>, i: nat, startTime: int, endTime: int)
    requires i < |s|
    ensures Filter(UpTo(s[i..], startTime), startTime, endTime)
            == if s[i].time < startTime then []
               else (if InWindow(s[i], startTime, endTime) then [s[i]] else [])
                    + Filter(UpTo(s[i + 1..], startTime), startTime, endTime)
  {
    assert s[i..][1..] == s[i + 1..];
  }

  lemma NoSample(startTime: int, endTime: int)
    ensures Filter(UpTo([], startTime), startTime, endTime) == []
  {
  }

  /** Leaving the loop at the first sample before the window loses nothing if and only if no sample of
      the window comes after one before it. */
  lemma BreakIsExact(s: seq<Sample>, startTime: int, endTime: int)
    ensures Filter(UpTo(s, startTime), startTime, endTime) == Filter(s, startTime, endTime)
            <==> forall i, j :: 0 <= i < j < |s| && s[i].time < startTime ==> !InWindow(s[j], startTime, endTime)
  {
    hide Filter, UpTo;
    var k := |UpTo(s, startTime)|;
    var rest := s[k..];
    assert s == s[..k] + rest && UpTo(s, startTime) == s[..k];
    FilterAppend(s[..k], rest, startTime, endTime);
    FilterEmptyExactly(rest, startTime, endTime);
    assert forall j :: 0 <= j < |rest| ==> rest[j] == s[k + j];
    if j :| 0 <= j < |rest| && InWindow(rest[j], startTime, endTime) {
      assert s[k].time < startTime && k < k + j && InWindow(s[k + j], startTime, endTime);
      assert Filter(rest, startTime, endTime) != [];
    } else {
      assert Filter(rest, startTime, endTime) == [];
      forall i, j | 0 <= i < j < |s| && s[i].time < startTime ensures !InWindow(s[j], startTime, endTime) {
        assert s[j] == rest[j - k];
      }
    }
  }

  ghost predicate Descending(s: seq<Sample>)
  {
    forall i, j :: 0 <= i < j < |s| ==> s[i].time > s[j].time
  }

  /** On a list that is newest first, as Redis holds it, the window is the fetched part filtered. */
  lemma ReadNewestFirst(list: seq<Sample>, startTime: int, endTime: int)
    requires Descending(list)
    ensures Read(list, startTime, endTime)
            == Filter(Reverse(LRange(list, endTime - startTime)), startTime, endTime)
  {
    var s := LRange(list, endTime - startTime);
    BreakIsExact(s, startTime, endTime);
    FilterReverse(s, startTime, endTime);
  }

  // ---------------------------------------------------------------------------------------
  // The web side: GetValueList_detail

  /** Seconds from a sample up to `until`: its value for `responseTime` seconds more, then 0. */
  function Segment(x: Sample, until: int, responseTime: int): seq<Sample>
  {
    seq(if until > x.time then until - x.time else 0,
        k => Sample(x.time + k, if k <= responseTime then x.value else 0.0))
  }

  function Expand(xs: seq<Sample>, responseTime: int, endTime: int): seq<Sample>
  {
    if xs == [] then []
    else if |xs| == 1 then Segment(xs[0], endTime, responseTime)
    else Segment(xs[0], xs[1].time, responseTime) + Expand(xs[1..], responseTime, endTime)
  }

  method GetValueListDetail(list: seq<Sample>, responseTime: int, interval: int, curTime: int)
    returns (result: seq<Sample>)
    ensures var endTime := curTime - responseTime;
            result == Expand(Read(list, endTime - interval, endTime), responseTime, endTime)
  {
    hide Read;
    var endTime := curTime - responseTime;
    var startTime := endTime - interval;
    var xs := GetCounterValue(list, startTime, endTime);
    result := [];
    if |xs| == 0 {
      return;
    }
    result := FillGaps(xs, responseTime, endTime);
  }

  /** The loops over the samples of the window. */
  method FillGaps(xs: seq<Sample>, responseTime: int, endTime: int) returns (result: seq<Sample>)
    requires xs != []
    ensures result == Expand(xs, responseTime, endTime)
  {
    hide Expand, Segment;
    result := [];
    assert xs[0..] == xs;
    var i := 0;
    while i < |xs| - 1
      invariant 0 <= i <= |xs| - 1
      invariant Expand(xs, responseTime, endTime) == result + Expand(xs[i..], responseTime, endTime)
    {
      ExpandStep(xs, i, responseTime, endTime);
      var segment := FillSegment(xs[i], xs[i + 1].time, responseTime);
      Associative(result, segment, Expand(xs[i + 1..], responseTime, endTime));
      result := result + segment;
      i := i + 1;
    }
    ExpandLast(xs, responseTime, endTime);
    var segment := FillSegment(xs[i], endTime, responseTime);
    result := result + segment;
  }

  lemma ExpandStep(xs: seq<Sample>, i: nat, responseTime: int, endTime: int)
    requires i + 1 < |xs|
    ensures Expand(xs[i..], responseTime, endTime)
            == Segment(xs[i], xs[i + 1].time, responseTime) + Expand(xs[i + 1..], responseTime, endTime)
  {
    assert xs[i..][1..] == xs[i + 1..];
  }

  lemma ExpandLast(xs: seq<Sample>, responseTime: int, endTime: int)
    requires xs != []
    ensures Expand(xs[|xs| - 1..], responseTime, endTime) == Segment(xs[|xs| - 1], endTime, responseTime)
  {
  }

  /** The loop over the seconds of one sample. */
  method FillSegment(x: Sample, end_t: int, responseTime: int) returns (part: seq<Sample>)
    ensures part == Segment(x, end_t, responseTime)
  {
    part := [];
    var time := x.time;
    while time < end_t
      invariant x.time <= time && (time <= end_t || time == x.time)
      invariant part == Segment(x, time, responseTime)
    {
      if time - x.time <= responseTime {
        part := part + [Sample(time, x.value)];
      } else {
        part := part + [Sample(time, 0.0)];
      }
      time := time + 1;
    }
  }

  // ---------------------------------------------------------------------------------------
  // What expansion means

  /** Index of the last sample at or before time `t`. */
  function Latest(xs: seq<Sample>, t: int): (k: nat)
    requires xs != [] && xs[0].time <= t
    ensures k < |xs| && xs[k].time <= t
    ensures k + 1 < |xs| ==> xs[k + 1].time > t
  {
    if |xs| == 1 || xs[1].time > t then 0 else 1 + Latest(xs[1..], t)
  }

  lemma {:induction false} LatestIsUnique(xs: seq<Sample>, t: int, k: nat)
    requires Ascending(xs) && k < |xs| && xs[0].time <= t && xs[k].time <= t && (k + 1 < |xs| ==> t < xs[k + 1].time)
    ensures Latest(xs, t) == k
  {
    if k > 0 {
      LatestIsUnique(xs[1..], t, k - 1);
    }
  }

  lemma {:induction false} LatestIsLast(xs: seq<Sample>, t: int, j: nat)
    requires Ascending(xs) && j < |xs| && xs[0].time <= t && xs[j].time <= t
    ensures j <= Latest(xs, t)
  {
    if j > 0 {
      assert xs[1].time <= xs[j].time;
      LatestIsLast(xs[1..], t, j - 1);
    }
  }

  /** The entry for second `t`: the latest sample's value, unless that is too old. */
  function Shown(xs: seq<Sample>, responseTime: int, t: int): Sample
    requires xs != [] && xs[0].time <= t
  {
    var x := xs[Latest(xs, t)];
    Sample(t, if t - x.time <= responseTime then x.value else 0.0)
  }

  /** The expanded list has one entry for each second from the first sample to the end of the
      window, holding the latest sample's value unless that is more than `responseTime` old. */
  lemma {:induction false} ExpandAt(xs: seq<Sample>, responseTime: int, endTime: int)
    requires xs != [] && Ascending(xs) && xs[|xs| - 1].time < endTime
    ensures var r := Expand(xs, responseTime, endTime);
            && |r| == endTime - xs[0].time
            && forall j :: 0 <= j < |r| ==> r[j] == Shown(xs, responseTime, xs[0].time + j)
    decreases |xs|
  {
    hide Shown, Expand, Segment;
    assert xs[0..] == xs;
    if |xs| > 1 {
      ExpandStep(xs, 0, responseTime, endTime);
      ExpandAt(xs[1..], responseTime, endTime);
      var first, rest := Segment(xs[0], xs[1].time, responseTime), Expand(xs[1..], responseTime, endTime);
      SegmentAt(xs, xs[1].time, responseTime);
      forall j | 0 <= j < |first + rest| ensures (first + rest)[j] == Shown(xs, responseTime, xs[0].time + j) {
        if j >= |first| {
          ShownNext(xs, responseTime, xs[0].time + j);
          assert (first + rest)[j] == rest[j - |first|];
        }
      }
    } else {
      ExpandLast(xs, responseTime, endTime);
      SegmentAt(xs, endTime, responseTime);
    }
  }

  lemma SegmentAt(xs: seq<Sample>, until: int, responseTime: int)
    requires xs != [] && xs[0].time < until && (|xs| > 1 ==> until == xs[1].time)
    ensures var r := Segment(xs[0], until, responseTime);
            && |r| == until - xs[0].time
            && forall j :: 0 <= j < |r| ==> r[j] == Shown(xs, responseTime, xs[0].time + j)
  {
  }

  lemma ShownNext(xs: seq<Sample>, responseTime: int, t: int)
    requires |xs| > 1 && xs[0].time < xs[1].time <= t
    ensures Shown(xs, responseTime, t) == Shown(xs[1..], responseTime, t)
  {
  }

  // ---------------------------------------------------------------------------------------
  // Windows of ascending lists

  /** First index whose time is at least `t`. */
  function FirstAt(s: seq<Sample>, t: int, i: nat): (k: nat)
    requires i <= |s|
    ensures i <= k <= |s|
    ensures forall j :: i <= j < k ==> s[j].time < t
    ensures k < |s| ==> s[k].time >= t
    decreases |s| - i
  {
    if i < |s| && s[i].time < t then FirstAt(s, t, i + 1) else i
  }

  /** A window of an ascending list is a stretch of it. */
  lemma FilterIsSlice(s: seq<Sample>, startTime: int, endTime: int) returns (lo: nat, hi: nat)
    requires Ascending(s)
    ensures lo <= hi <= |s| && Filter(s, startTime, endTime) == s[lo..hi]
    ensures forall j :: 0 <= j < |s| ==> (lo <= j < hi <==> InWindow(s[j], startTime, endTime))
  {
    lo := FirstAt(s, startTime, 0);
    hi := FirstAt(s, endTime, lo);
    forall j | 0 <= j < |s| ensures lo <= j < hi <==> InWindow(s[j], startTime, endTime) {
      assert lo < j ==> s[lo].time < s[j].time;
      assert hi < j ==> s[hi].time < s[j].time;
    }
    FilterOfSlice(s, lo, hi, startTime, endTime);
  }

  lemma FilterOfSlice(s: seq<Sample>, lo: nat, hi: nat, startTime: int, endTime: int)
    requires lo <= hi <= |s|
    requires forall j :: 0 <= j < |s| ==> (lo <= j < hi <==> InWindow(s[j], startTime, endTime))
    ensures Filter(s, startTime, endTime) == s[lo..hi]
  {
    hide Filter;
    FilterEmptyExactly(s[..lo], startTime, endTime);
    FilterAll(s[lo..hi], startTime, endTime);
    FilterEmptyExactly(s[hi..], startTime, endTime);
    FilterAppend(s[..lo], s[lo..hi], startTime, endTime);
    FilterAppend(s[..lo] + s[lo..hi], s[hi..], startTime, endTime);
    assert s[..lo] + s[lo..hi] + s[hi..] == s;
    assert [] + s[lo..hi] + [] == s[lo..hi];
  }

  lemma {:induction false} FilterAll(s: seq<Sample>, startTime: int, endTime: int)
    requires forall i :: 0 <= i < |s| ==> InWindow(s[i], startTime, endTime)
    ensures Filter(s, startTime, endTime) == s
  {
    if s != [] {
      FilterAll(s[1..], startTime, endTime);
      assert [s[0]] + s[1..] == s;
    }
  }

  /** What is read from a list that is newest first, told by its members. */
  lemma ReadExactly(list: seq<Sample>, startTime: int, endTime: int)
    requires Descending(list) && startTime <= endTime
    ensures WindowOf(Read(list, startTime, endTime), list, startTime, endTime)
  {
    hide Read, Filter, LRange, Reverse, Descending;
    var n := endTime - startTime;
    var a := Reverse(LRange(list, n));
    ReadNewestFirst(list, startTime, endTime);
    Fetched(list, n);
    var lo, hi := FilterIsSlice(a, startTime, endTime);
    var r := a[lo..hi];
    forall x | x in r
      ensures exists i :: 0 <= i < |list| && i <= n && list[i] == x && startTime <= x.time < endTime
    {
      var j :| 0 <= j < |r| && r[j] == x;
      assert a[lo + j] == x && InWindow(x, startTime, endTime);
      assert list[|a| - 1 - (lo + j)] == x;
    }
    forall i | 0 <= i < |list| && i <= n && startTime <= list[i].time < endTime ensures list[i] in r {
      assert a[|a| - 1 - i] == list[i] && InWindow(a[|a| - 1 - i], startTime, endTime);
      assert r[|a| - 1 - i - lo] == list[i];
    }
  }

  /** The fetched part, oldest first. */
  lemma Fetched(list: seq<Sample>, n: nat)
    requires Descending(list)
    ensures var a := Reverse(LRange(list, n));
            && |a| == (if n + 1 <= |list| then n + 1 else |list|) && Ascending(a)
            && forall i :: 0 <= i < |a| ==> a[i] == list[|a| - 1 - i] && list[i] == a[|a| - 1 - i]
  {
    hide Descending, Ascending;
    var s := LRange(list, n);
    var a := Reverse(s);
    assert s == list[..Min(n + 1, |list|)];
    assert forall i :: 0 <= i < |a| ==> a[i] == s[|s| - 1 - i] == list[|s| - 1 - i];
    assert forall i :: 0 <= i < |a| ==> a[|a| - 1 - i] == list[i];
    BackwardsAscends(a, list);
  }

  lemma BackwardsAscends(a: seq<Sample>, list: seq<Sample>)
    requires Descending(list) && |a| <= |list| && forall i :: 0 <= i < |a| ==> a[i] == list[|a| - 1 - i]
    ensures Ascending(a)
  {
  }

  /** The limits of LRANGE: a stop of -1 is the last entry. */
  lemma KnownRanges(list: seq<Sample>)
    ensures LRange(list, -1) == list && LRange(list, |list|) == list
    ensures list != [] ==> LRange(list, 0) == [list[0]] && LRange(list, -2) == list[..|list| - 1]
  {
  }

  /** In a compressed batch every sample differs from the one kept before it, and the first from `cur`. */
  lemma {:induction false} CompressKeepsChanges(cur: real, logs: seq<Sample>)
    ensures var c := Compress(cur, logs);
            && (forall x :: x in c ==> x in logs)
            && (c != [] ==> c[0].value != cur)
            && (forall i :: 0 < i < |c| ==> c[i].value != c[i - 1].value)
    decreases |logs|
  {
    if logs != [] {
      assert logs == [logs[0]] + logs[1..];
      CompressKeepsChanges(logs[0].value, logs[1..]);
      CompressKeepsChanges(cur, logs[1..]);
    }
  }
}
