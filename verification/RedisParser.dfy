/** The resumable RESP parser, with the fields and the control flow of the C++ class: a byte
    loop over a lexical state, and native recursion for nested arrays that is unwound onto two
    stacks when the input runs out. Both stacks are sequences whose last element is the top. */
module RedisParsers {
  import opened Basics
  import opened Bytes
  import opened RespDecoder
  import M = RespMachine

  datatype ParseResult = Completed | Incompleted | Error

  datatype State =
    | Start
    | String | StringLF
    | ErrorString | ErrorLF
    | Integer | IntegerLF
    | BulkSize | BulkSizeLF | Bulk | BulkCR | BulkLF
    | ArraySize | ArraySizeLF

  /** `RedisValue::toArray`: the elements of an array, and nothing for any other value. */
  function ToArray(v: Value): seq<Value>
  {
    if v.Array? then v.items else []
  }

  /** The suspended arrays saved on the stacks, innermost first: the outermost is on top. */
  ghost function FramesOf(counts: seq<int>, values: seq<Value>): (fs: seq<M.Frame>)
    requires |counts| <= |values|
    ensures |fs| == |counts|
  {
    seq(|counts|, j requires 0 <= j < |counts| =>
      M.Frame(counts[j], ToArray(values[|values| - |counts| + j])))
  }

  /** The values that lie under the suspended arrays. */
  ghost function Below(counts: seq<int>, values: seq<Value>): seq<Value>
    requires |counts| <= |values|
  {
    if counts == [] then values else values[..|values| - |counts|]
  }

  /** What the fields mean: the place in the current reply, the suspended arrays, and the
      values below them. Leftovers that no later byte can see are not part of it. */
  datatype View = View(lex: M.Lex, frames: seq<M.Frame>, base: seq<Value>)

  ghost function LexOf(state: State, buf: seq<byte>, bulkSize: int): M.Lex
  {
    match state
    case Start => M.Start
    case String => M.Line(PLUS, buf)
    case StringLF => M.LineLF(PLUS, buf)
    case ErrorString => M.Line(MINUS, buf)
    case ErrorLF => M.LineLF(MINUS, buf)
    case Integer => M.Line(COLON, buf)
    case IntegerLF => M.LineLF(COLON, buf)
    case BulkSize => M.Line(DOLLAR, buf)
    case BulkSizeLF => M.LineLF(DOLLAR, buf)
    case Bulk => M.Payload(buf, if bulkSize < 0 then 0 else bulkSize)
    case BulkCR => M.PayloadCR(buf)
    case BulkLF => M.PayloadLF(buf)
    case ArraySize => M.Line(STAR, buf)
    case ArraySizeLF => M.LineLF(STAR, buf)
  }

  /** The meaning a run leaves in the fields: a pause suspends its frames, a value goes on top
      of `base`, and a failure leaves `residue` behind. */
  ghost function After(r: M.Status, base: seq<Value>, residue: seq<M.Frame>): View
  {
    match r
    case Paused(l, fs) => View(l, fs, base)
    case Finished(v, n) => View(M.Start, [], base + [v])
    case Failed(n) => View(M.Start, residue, base)
  }

  /** The pair `parse` returns for a run over `size` bytes. */
  ghost predicate Returns(r: M.Status, size: nat, used: int, result: ParseResult)
  {
    match r
    case Paused(l, fs) => result == Incompleted && used == size
    case Finished(v, n) => result == Completed && used == n
    case Failed(n) => result == Error && used == n
  }

  /** The frames still on the stacks after a run over `s` has failed: every suspended array
      outside the one that was being completed, but never that one itself. */
  ghost function Residue(l: M.Lex, fs: seq<M.Frame>, s: seq<byte>): seq<M.Frame>
    decreases |fs|
  {
    if |fs| <= 1 || !M.Run(l, fs[..|fs| - 1], s).Failed? then []
    else Residue(l, fs[..|fs| - 1], s) + [fs[|fs| - 1]]
  }

  lemma ResidueOf(l: M.Lex, inner: seq<M.Frame>, outer: M.Frame, s: seq<byte>)
    ensures Residue(l, inner + [outer], s)
            == if inner == [] || !M.Run(l, inner, s).Failed? then [] else Residue(l, inner, s) + [outer]
  {
    assert (inner + [outer])[..|inner|] == inner;
  }

  /** `value` was on top of `stack`, and `rest` is left; an empty stack gives nil. */
  ghost predicate TakesTop(stack: seq<Value>, value: Value, rest: seq<Value>)
  {
    if stack == [] then value == Nil && rest == [] else stack == rest + [value]
  }

  lemma OnlyValue(stack: seq<Value>, value: Value, rest: seq<Value>, v: Value)
    requires TakesTop(stack, value, rest) && stack == [] + [v]
    ensures value == v && rest == []
  {
    assert stack[0] == v && |rest| == 0;
  }

  lemma NoResidue(l: M.Lex, s: seq<byte>)
    ensures Residue(l, [], s) == []
  {
  }

  lemma NothingSuspended(values: seq<Value>)
    ensures Below([], values) == values && FramesOf([], values) == []
  {
  }

  lemma FramesPush(counts: seq<int>, values: seq<Value>, n: int, items: seq<Value>)
    requires |counts| <= |values|
    ensures FramesOf(counts + [n], values + [Array(items)]) == FramesOf(counts, values) + [M.Frame(n, items)]
    ensures Below(counts + [n], values + [Array(items)]) == Below(counts, values)
  {
    var cs, vs := counts + [n], values + [Array(items)];
    assert values == values[..|values|];
    var fs := FramesOf(counts, values);
    forall j | 0 <= j < |counts| ensures FramesOf(cs, vs)[j] == fs[j] {
      assert fs[j] == M.Frame(counts[j], ToArray(values[|values| - |counts| + j]));
      assert vs[|vs| - |cs| + j] == values[|values| - |counts| + j];
    }
    assert FramesOf(cs, vs)[|counts|] == M.Frame(n, ToArray(vs[|values|]));
    assert FramesOf(cs, vs) == fs + [M.Frame(n, items)];
  }

  lemma FramesPop(counts: seq<int>, values: seq<Value>)
    requires 1 <= |counts| <= |values|
    ensures var k := |counts| - 1;
            FramesOf(counts, values)
            == FramesOf(counts[..k], values[..|values| - 1])
               + [M.Frame(counts[k], ToArray(values[|values| - 1]))]
            && Below(counts, values) == Below(counts[..k], values[..|values| - 1])
  {
  }

  /** How the innermost suspended arrays and the one array around them make progress. */
  lemma {:induction false} RunInsideOne(l: M.Lex, inner: seq<M.Frame>, outer: M.Frame, s: seq<byte>)
    ensures var r := M.Run(l, inner, s);
            && (r.Finished? || r.Failed? ==> 1 <= r.used <= |s|)
            && M.Run(l, inner + [outer], s) == Enclose(r, outer, s)
  {
    M.RunInside(l, inner, [outer], s);
    M.RunBounds(l, inner, s);
    var r := M.Run(l, inner, s);
    if r.Finished? {
      assert [outer][1..] == [];
      var items := outer.items + [r.value];
      if outer.left == 1 {
        assert M.Deliver(r.value, [outer]) == M.Finished(Array(items), 0);
      } else {
        assert M.Deliver(r.value, [outer]) == M.Paused(M.Start, [M.Frame(outer.left - 1, items)]);
      }
    }
  }

  ghost function Enclose(r: M.Status, outer: M.Frame, s: seq<byte>): M.Status
  {
    match r
    case Paused(l, fs) => M.Paused(l, fs + [outer])
    case Failed(n) => M.Failed(n)
    case Finished(v, n) =>
      if n > |s| then r else
      M.Later(Elements(M.Start, outer.left - 1, outer.items + [v], s[n..]), n)
  }

  /** The run of an array that misses `left` elements, `l` being inside the first of them. */
  ghost function Elements(l: M.Lex, left: int, items: seq<Value>, s: seq<byte>): M.Status
  {
    if left == 0 then M.Finished(Array(items), 0) else M.Run(l, [M.Frame(left, items)], s)
  }

  /** One element of an array at byte `i` of `data`. */
  lemma NextElement(l: M.Lex, left: int, items: seq<Value>, data: seq<byte>, i: nat)
    requires left >= 1 && i <= |data|
    ensures var r := M.Run(l, [], data[i..]);
            && (r.Finished? || r.Failed? ==> 1 <= r.used <= |data| - i)
            && Elements(l, left, items, data[i..])
               == match r
                  case Paused(l', fs) => M.Paused(l', fs + [M.Frame(left, items)])
                  case Failed(n) => r
                  case Finished(v, n) => M.Later(Elements(M.Start, left - 1, items + [v], data[i + n..]), n)
  {
    var f := M.Frame(left, items);
    assert [] + [f] == [f];
    RunInsideOne(l, [], f, data[i..]);
    var r := M.Run(l, [], data[i..]);
    if r.Finished? {
      assert data[i..][r.used..] == data[i + r.used..];
    }
  }

  /** A block copy of payload bytes is that many single steps. */
  lemma {:induction false} PayloadBlock(buf: seq<byte>, left: nat, data: seq<byte>, i: nat, k: nat)
    requires left >= 1 && i <= |data| && k == Min(left, |data| - i)
    ensures var got := buf + data[i..i + k];
            var l := if k < left then M.Payload(got, left - k) else M.PayloadCR(got);
            M.Run(M.Payload(buf, left), [], data[i..]) == M.Later(M.Run(l, [], data[i + k..]), k)
    decreases left
  {
    if i == |data| {
      assert buf + data[i..i + k] == buf;
    } else {
      StepRun(M.Payload(buf, left), data, i);
      if left == 1 {
        assert data[i..i + k] == [data[i]];
      } else {
        PayloadBlock(buf + [data[i]], left - 1, data, i + 1, k - 1);
        assert buf + [data[i]] + data[i + 1..i + k] == buf + data[i..i + k];
      }
    }
  }

  /** One step of a run, from byte `i` of `data`, with no array open. */
  lemma StepRun(l: M.Lex, data: seq<byte>, i: nat)
    requires i < |data|
    ensures M.Run(l, [], data[i..])
            == match M.StepLex(l, data[i])
               case Stay(l') => M.Later(M.Run(l', [], data[i + 1..]), 1)
               case Give(v) => M.Finished(v, 1)
               case Open(n) => M.Later(M.Run(M.Start, [M.Frame(n, [])], data[i + 1..]), 1)
               case Reject => M.Failed(1)
  {
    assert data[i..][1..] == data[i + 1..];
    if M.StepLex(l, data[i]).Open? {
      var n := M.StepLex(l, data[i]).count;
      assert [M.Frame(n, [])] + [] == [M.Frame(n, [])];
    }
  }

  class RedisParser {
    var state: State
    var bulkSize: int
    var buf: seq<byte>
    var arrayStack: seq<int>
    var valueStack: seq<Value>

    constructor ()
      ensures state == State.Start && bulkSize == 0
      ensures arrayStack == [] && valueStack == []
    {
      state := State.Start;
      bulkSize := 0;
      buf := [];
      arrayStack := [];
      valueStack := [];
    }

    ghost function Now(): View
      requires |arrayStack| <= |valueStack|
      reads this
    {
      View(LexOf(state, buf, bulkSize), FramesOf(arrayStack, valueStack), Below(arrayStack, valueStack))
    }

    ghost function Lex(): M.Lex
      reads this
    {
      LexOf(state, buf, bulkSize)
    }

    /** Between calls: a bulk string under way misses something, every suspended array misses at
        least one element, and each has its elements so far on the other stack. */
    ghost predicate Valid()
      reads this
    {
      && (state == State.Bulk ==> bulkSize > 0)
      && |arrayStack| <= |valueStack|
      && (forall j :: 0 <= j < |arrayStack| ==> arrayStack[j] >= 1)
    }

    /** The one entry point. The answer, the count and the new state are those of a run of the byte
        machine from the old state; Incompleted takes everything, and a verdict at least a byte. */
    method Parse(data: seq<byte>) returns (used: nat, result: ParseResult)
      requires Valid()
      modifies this
      ensures Valid() && used <= |data|
      ensures if result == Incompleted then used == |data| else used >= 1
      ensures var was, r := old(Now()), M.Run(old(Now()).lex, old(Now()).frames, data);
              && Returns(r, |data|, used, result)
              && Now() == After(r, was.base, Residue(was.lex, was.frames, data))
      decreases |data|, |arrayStack|, 3
    {
      M.RunBounds(Now().lex, Now().frames, data);
      if arrayStack != [] {
        used, result := ParseArray(data);
      } else {
        used, result := ParseChunk(data);
      }
    }

    method ParseArray(data: seq<byte>) returns (used: nat, result: ParseResult)
      requires Valid() && arrayStack != []
      modifies this
      ensures Valid()
      ensures var was, r := old(Now()), M.Run(old(Now()).lex, old(Now()).frames, data);
              && Returns(r, |data|, used, result)
              && Now() == After(r, was.base, Residue(was.lex, was.frames, data))
      decreases |data|, |arrayStack|, 0
    {
      hide M.Run, M.StepLex, M.Apply, M.Deliver, LexOf, FramesOf, Below, Residue;
      ghost var was := Now();
      FramesPop(arrayStack, valueStack);

      var arraySize := arrayStack[|arrayStack| - 1];
      var arrayValue := ToArray(valueStack[|valueStack| - 1]);
      ghost var outer := M.Frame(arraySize, arrayValue);

      arrayStack := arrayStack[..|arrayStack| - 1];
      valueStack := valueStack[..|valueStack| - 1];

      ghost var inner := Now();
      assert was.frames == inner.frames + [outer] && was.base == inner.base && was.lex == inner.lex;
      RunInsideOne(was.lex, inner.frames, outer, data);
      ResidueOf(was.lex, inner.frames, outer, data);
      NothingSuspended(valueStack);

      var i := 0;

      if arrayStack != [] {
        var n, r := ParseArray(data);
        if r != Completed {
          PushArray(arraySize, arrayValue);
          return n, r;
        }
        NothingSuspended(valueStack);
        arrayValue := TakeElement(arrayValue);
        arraySize := arraySize - 1;
        i := n;
      } else {
        assert data[0..] == data && was.frames == [outer];
      }

      used, result := ParseElements(data, i, arraySize, arrayValue);
    }

    /** The value on top becomes the next element. */
    method TakeElement(items: seq<Value>) returns (more: seq<Value>)
      requires arrayStack == [] && valueStack != []
      modifies this`valueStack
      ensures more == items + [old(valueStack)[|old(valueStack)| - 1]]
      ensures valueStack == old(valueStack)[..|old(valueStack)| - 1]
    {
      more := items + [valueStack[|valueStack| - 1]];
      valueStack := valueStack[..|valueStack| - 1];
    }

    /** An array goes back on the stacks, outside those that are there. */
    method PushArray(count: int, items: seq<Value>)
      requires Valid() && count >= 1
      modifies this`arrayStack, this`valueStack
      ensures Valid()
      ensures Now() == View(old(Lex()), old(Now()).frames + [M.Frame(count, items)], old(Now()).base)
    {
      hide LexOf, FramesOf, Below;
      FramesPush(arrayStack, valueStack, count, items);
      valueStack := valueStack + [Array(items)];
      arrayStack := arrayStack + [count];
    }

    /** The input is used up: a complete array is a value, another one waits for the next call. */
    method SuspendArray(count: int, items: seq<Value>) returns (result: ParseResult)
      requires Valid() && arrayStack == [] && count >= 0
      requires count == 0 ==> Lex() == M.Start
      modifies this`arrayStack, this`valueStack
      ensures Valid()
      ensures var r := Elements(old(Lex()), count, items, []);
              && Returns(r, 0, 0, result)
              && Now() == After(r, old(valueStack), [])
    {
      hide LexOf, FramesOf;
      NothingSuspended(valueStack);
      NothingSuspended(valueStack + [Array(items)]);
      if count == 0 {
        valueStack := valueStack + [Array(items)];
        return Completed;
      }
      PushArray(count, items);
      assert [] + [M.Frame(count, items)] == [M.Frame(count, items)];
      return Incompleted;
    }

    /** One turn of the element loop of `parseArray`, for an array that misses `left` elements. */
    method ParseElement(data: seq<byte>, i: nat, left: int, items: seq<Value>)
      returns (n: nat, r: ParseResult, more: seq<Value>)
      requires Valid() && arrayStack == [] && left >= 1 && i <= |data|
      modifies this
      ensures Valid() && i + n <= |data|
      ensures r == Completed ==>
                && arrayStack == [] && valueStack == old(valueStack) && Lex() == M.Start
                && Elements(old(Lex()), left, items, data[i..])
                   == M.Later(Elements(M.Start, left - 1, more, data[i + n..]), n)
      ensures r != Completed ==>
                var e := Elements(old(Lex()), left, items, data[i..]);
                Returns(e, |data| - i, n, r) && Now() == After(e, old(valueStack), [])
      decreases |data| - i, |arrayStack|, 4
    {
      hide M.Run, M.StepLex, M.Apply, M.Deliver, LexOf, FramesOf, Residue, Elements;
      NextElement(Lex(), left, items, data, i);
      NoResidue(Lex(), data[i..]);
      more := items;
      n, r := Parse(data[i..]);
      if r == Incompleted {
        PushArray(left, items);
      } else if r == Completed {
        more := TakeElement(items);
      }
    }

    /** The rest of `parseArray`: an array that misses `count` elements is suspended again if the
        input is used up, and otherwise goes on with its elements. Nothing is suspended while the
        loop runs, so every call of `Parse` it makes goes to `ParseChunk`. */
    method ParseElements(data: seq<byte>, start: nat, count: int, items: seq<Value>)
      returns (used: nat, result: ParseResult)
      requires Valid() && arrayStack == [] && count >= 0 && start <= |data|
      requires count == 0 ==> Lex() == M.Start
      modifies this
      ensures Valid()
      ensures var r := Elements(old(Lex()), count, items, data[start..]);
              && Returns(r, |data| - start, used - start, result)
              && Now() == After(r, old(valueStack), [])
      decreases |data| - start, |arrayStack|, 5
    {
      hide M.Run, M.StepLex, M.Apply, M.Deliver, LexOf, FramesOf, Residue;
      ghost var whole := Elements(Lex(), count, items, data[start..]);
      if start == |data| {
        assert data[start..] == [];
        result := SuspendArray(count, items);
        return start, result;
      }
      var i := start;
      var arrayValue := items;
      var x := 0;
      while x < count
        invariant 0 <= x <= count && start <= i <= |data|
        invariant Valid() && arrayStack == [] && valueStack == old(valueStack)
        invariant x == count ==> Lex() == M.Start
        invariant whole == M.Later(Elements(Lex(), count - x, arrayValue, data[i..]), i - start)
      {
        ghost var at := i;
        var n, r, more := ParseElement(data, i, count - x, arrayValue);
        i := i + n;
        if r != Completed {
          return i, r;
        }
        arrayValue := more;
        x := x + 1;
        M.LaterTwice(Elements(M.Start, count - x, arrayValue, data[i..]), n, at - start);
      }
      valueStack := valueStack + [Array(arrayValue)];
      return i, Completed;
    }

    method ParseChunk(data: seq<byte>) returns (used: nat, result: ParseResult)
      requires Valid() && arrayStack == []
      modifies this
      ensures Valid()
      ensures var r := M.Run(old(Lex()), [], data);
              && Returns(r, |data|, used, result)
              && Now() == After(r, old(valueStack), [])
      decreases |data|, 0, 2
    {
      hide M.Run;
      var i := 0;
      assert data[0..] == data;
      while i < |data|
        invariant 0 <= i <= |data|
        invariant Valid() && arrayStack == [] && valueStack == old(valueStack)
        invariant state == State.Bulk ==> i == 0 || i == |data|
        invariant M.Run(old(Lex()), [], data) == M.Later(M.Run(Lex(), [], data[i..]), i)
        decreases |data| - i
      {
        var j, verdict, again := ReadOn(data, i);
        if !again {
          return j, verdict;
        }
        M.LaterTwice(M.Run(Lex(), [], data[j..]), j - i, i);
        i := j;
      }
      assert data[|data|..] == [];
      M.RunNothing(Lex(), []);
      return i, Incompleted;
    }

    /** One turn of the byte loop, from byte `i` on to byte `j`: it either ends the call or lets
        the loop go on. */
    method ReadOn(data: seq<byte>, i: nat) returns (j: nat, verdict: ParseResult, again: bool)
      requires i < |data| && Valid() && arrayStack == []
      requires state == State.Bulk ==> i == 0
      modifies this
      ensures Valid() && i < j <= |data|
      ensures again ==> arrayStack == [] && valueStack == old(valueStack)
                        && (state == State.Bulk ==> j == |data|)
                        && M.Run(old(Lex()), [], data[i..]) == M.Later(M.Run(Lex(), [], data[j..]), j - i)
      ensures !again ==> var r := M.Run(old(Lex()), [], data[i..]);
                         Returns(r, |data| - i, j - i, verdict) && Now() == After(r, old(valueStack), [])
      decreases |data| - i, 0, 1
    {
      hide M.Run, M.StepLex, FramesOf, Residue;
      StepRun(Lex(), data, i);
      match state {
        case BulkSizeLF =>
          j, verdict := ReadBulkSizeLF(data, i);
        case Bulk =>
          j, verdict := ReadBulk(data);
        case ArraySizeLF =>
          var arraySize;
          arraySize, verdict := ReadArraySizeLF(data[i]);
          j := i + 1;
          if arraySize > 0 {
            M.RunBounds(M.Start, [M.Frame(arraySize, [])], data[i + 1..]);
            var n, r := OpenArray(data[i + 1..], arraySize);
            return n + i + 1, r, false;
          }
        case _ =>
          verdict := ReadByte(data[i]);
          j := i + 1;
      }
      return j, verdict, verdict == Incompleted;
    }

    /** An array of `arraySize` elements begins; `data` is what is left of the input. */
    method OpenArray(data: seq<byte>, arraySize: int) returns (used: nat, result: ParseResult)
      requires Valid() && arrayStack == [] && state == State.Start && arraySize > 0
      modifies this
      ensures Valid()
      ensures var r := M.Run(M.Start, [M.Frame(arraySize, [])], data);
              && Returns(r, |data|, used, result)
              && Now() == After(r, old(valueStack), [])
      decreases |data|, 1, 1
    {
      hide M.Run;
      PushArray(arraySize, []);
      assert Now().frames == [M.Frame(arraySize, [])];
      if data != [] {
        used, result := ParseArray(data);
      } else {
        M.RunNothing(M.Start, [M.Frame(arraySize, [])]);
        return 0, Incompleted;
      }
    }

    /** The lexical state and the values are those the byte machine's step asks for. */
    ghost predicate Stepped(t: M.Token, verdict: ParseResult, base: seq<Value>)
      reads this
    {
      match t
      case Stay(l) => verdict == Incompleted && Lex() == l && valueStack == base
      case Give(v) => verdict == Completed && state == State.Start && valueStack == base + [v]
      case Open(n) => state == State.Start && valueStack == base
      case Reject => verdict == Error && state == State.Start && valueStack == base
    }

    /** State `BulkSizeLF`: the length is complete, and as much of the payload as is there is
        copied at once. */
    method ReadBulkSizeLF(data: seq<byte>, i: nat) returns (j: nat, verdict: ParseResult)
      requires i < |data| && Valid() && arrayStack == [] && state == State.BulkSizeLF
      modifies this
      ensures Valid() && arrayStack == [] && i < j <= |data|
      ensures state == State.Bulk ==> j == |data|
      ensures verdict == Incompleted ==>
                valueStack == old(valueStack)
                && M.Run(old(Lex()), [], data[i..]) == M.Later(M.Run(Lex(), [], data[j..]), j - i)
      ensures verdict != Incompleted ==>
                j == i + 1 && !M.StepLex(old(Lex()), data[i]).Open?
                && Stepped(M.StepLex(old(Lex()), data[i]), verdict, old(valueStack))
    {
      hide M.Run, Strtol, FramesOf, Below;
      StepRun(Lex(), data, i);
      if data[i] != LF {
        state := State.Start;
        return i + 1, Error;
      }
      bulkSize := Strtol(buf);
      buf := [];
      if bulkSize == -1 {
        state := State.Start;
        valueStack := valueStack + [Nil];
        return i + 1, Completed;
      } else if bulkSize == 0 {
        state := State.BulkCR;
        return i + 1, Incompleted;
      } else if bulkSize < 0 {
        state := State.Start;
        return i + 1, Error;
      }
      var available := |data| - i - 1;
      var canRead := Min(bulkSize, available);
      if canRead > 0 {
        buf := data[i + 1..i + canRead + 1];
      }
      assert [] + data[i + 1..i + canRead + 1] == buf;
      PayloadBlock([], bulkSize, data, i + 1, canRead);
      if bulkSize > available {
        bulkSize := bulkSize - canRead;
        state := State.Bulk;
      } else {
        state := State.BulkCR;
      }
      M.LaterTwice(M.Run(Lex(), [], data[i + 1 + canRead..]), canRead, 1);
      return i + 1 + canRead, Incompleted;
    }

    /** State `Bulk` is met only at the first byte of a call, so the source's
        `insert(ptr + i, ptr + canRead)` copies `canRead` bytes. */
    method ReadBulk(data: seq<byte>) returns (j: nat, verdict: ParseResult)
      requires data != [] && Valid() && arrayStack == [] && state == State.Bulk
      modifies this
      ensures Valid() && arrayStack == [] && valueStack == old(valueStack)
      ensures verdict == Incompleted && 0 < j <= |data|
      ensures state == State.Bulk ==> j == |data|
      ensures M.Run(old(Lex()), [], data[0..]) == M.Later(M.Run(Lex(), [], data[j..]), j)
    {
      hide M.Run;
      var i := 0;
      var available := |data| - i;
      var canRead := Min(available, bulkSize);
      PayloadBlock(buf, bulkSize, data, 0, canRead);
      buf := buf + data[i..canRead];
      bulkSize := bulkSize - canRead;
      if bulkSize == 0 {
        state := State.BulkCR;
      }
      return canRead, Incompleted;
    }

    /** State `ArraySizeLF`, up to the decision to open an array of `count` > 0 elements. */
    method ReadArraySizeLF(c: byte) returns (count: int, verdict: ParseResult)
      requires Valid() && arrayStack == [] && state == State.ArraySizeLF
      modifies this
      ensures Valid() && arrayStack == [] && verdict != Incompleted
      ensures Stepped(M.StepLex(old(Lex()), c), verdict, old(valueStack))
      ensures if count > 0 then M.StepLex(old(Lex()), c) == M.Open(count)
              else !M.StepLex(old(Lex()), c).Open?
    {
      state := State.Start;
      if c == LF {
        var arraySize := Strtol(buf);
        buf := [];
        if arraySize == -1 || arraySize == 0 {
          valueStack := valueStack + [Array([])];
          return 0, Completed;
        } else if arraySize < 0 {
          return 0, Error;
        } else {
          return arraySize, Completed;
        }
      } else {
        return 0, Error;
      }
    }

    /** The states of the byte loop that look at one byte and at nothing else. */
    method ReadByte(c: byte) returns (verdict: ParseResult)
      requires Valid() && arrayStack == []
      requires state !in {State.BulkSizeLF, State.Bulk, State.ArraySizeLF}
      modifies this
      ensures Valid() && arrayStack == [] && state != State.Bulk
      ensures Stepped(M.StepLex(old(Lex()), c), verdict, old(valueStack))
      ensures !M.StepLex(old(Lex()), c).Open?
    {
      hide M.StepLex, Stepped, LexOf;
      if state in {State.StringLF, State.ErrorLF, State.BulkCR, State.BulkLF, State.IntegerLF} {
        verdict := ReadTerminator(c);
      } else {
        verdict := ReadLineByte(c);
      }
    }

    /** A type byte, or a byte of a line. */
    method ReadLineByte(c: byte) returns (verdict: ParseResult)
      requires Valid() && arrayStack == []
      requires state in {State.Start, State.String, State.ErrorString, State.BulkSize, State.ArraySize, State.Integer}
      modifies this
      ensures Valid() && arrayStack == [] && state != State.Bulk
      ensures Stepped(M.StepLex(old(Lex()), c), verdict, old(valueStack))
      ensures !M.StepLex(old(Lex()), c).Open?
    {
      hide Strtol, FramesOf, Below;
      match state {
      case Start =>
        buf := [];
        if c == PLUS {
          state := State.String;
        } else if c == MINUS {
          state := State.ErrorString;
        } else if c == COLON {
          state := State.Integer;
        } else if c == DOLLAR {
          state := State.BulkSize;
          bulkSize := 0;
        } else if c == STAR {
          state := State.ArraySize;
        } else {
          state := State.Start;
          return Error;
        }
      case String =>
        if c == CR {
          state := State.StringLF;
        } else if IsText(c) {
          buf := buf + [c];
        } else {
          state := State.Start;
          return Error;
        }
      case ErrorString =>
        if c == CR {
          state := State.ErrorLF;
        } else if IsText(c) {
          buf := buf + [c];
        } else {
          state := State.Start;
          return Error;
        }
      case BulkSize =>
        if c == CR {
          if buf == [] {
            state := State.Start;
            return Error;
          } else {
            state := State.BulkSizeLF;
          }
        } else if IsNumeric(c) {
          buf := buf + [c];
        } else {
          state := State.Start;
          return Error;
        }
      case ArraySize =>
        if c == CR {
          if buf == [] {
            state := State.Start;
            return Error;
          } else {
            state := State.ArraySizeLF;
          }
        } else if IsNumeric(c) {
          buf := buf + [c];
        } else {
          state := State.Start;
          return Error;
        }
      case Integer =>
        if c == CR {
          if buf == [] {
            state := State.Start;
            return Error;
          } else {
            state := State.IntegerLF;
          }
        } else if IsNumeric(c) {
          buf := buf + [c];
        } else {
          state := State.Start;
          return Error;
        }
      case _ =>
        assert false;
      }
      return Incompleted;
    }

    /** A byte that only one character may be. */
    method ReadTerminator(c: byte) returns (verdict: ParseResult)
      requires Valid() && arrayStack == []
      requires state in {State.StringLF, State.ErrorLF, State.BulkCR, State.BulkLF, State.IntegerLF}
      modifies this
      ensures Valid() && arrayStack == [] && state != State.Bulk
      ensures Stepped(M.StepLex(old(Lex()), c), verdict, old(valueStack))
      ensures !M.StepLex(old(Lex()), c).Open?
    {
      hide Strtol, FramesOf, Below;
      match state {
      case StringLF =>
        state := State.Start;
        if c == LF {
          valueStack := valueStack + [Value.Bulk(buf)];
          return Completed;
        } else {
          return Error;
        }
      case ErrorLF =>
        state := State.Start;
        if c == LF {
          valueStack := valueStack + [ErrorReply(buf)];
          return Completed;
        } else {
          return Error;
        }
      case BulkCR =>
        if c == CR {
          state := State.BulkLF;
        } else {
          state := State.Start;
          return Error;
        }
      case BulkLF =>
        state := State.Start;
        if c == LF {
          valueStack := valueStack + [Value.Bulk(buf)];
          return Completed;
        } else {
          return Error;
        }
      case IntegerLF =>
        state := State.Start;
        if c == LF {
          valueStack := valueStack + [Int(Strtol(buf))];
          buf := [];
          return Completed;
        } else {
          return Error;
        }
      case _ =>
        assert false;
      }
      return Incompleted;
    }

    /** The value of the last Completed, or nil if there is none to take. */
    method Result() returns (value: Value)
      modifies this`valueStack
      ensures TakesTop(old(valueStack), value, valueStack)
      ensures arrayStack == [] ==>
                Now() == View(old(Lex()), [], Now().base) && TakesTop(old(Now()).base, value, Now().base)
    {
      if valueStack != [] {
        value := valueStack[|valueStack| - 1];
        valueStack := valueStack[..|valueStack| - 1];
      } else {
        value := Nil;
      }
    }
  }
}
