/** What the resumable parser promises its callers: the way a byte stream is cut into reads never
    changes a verdict, what is suspended between two reads, and what an error leaves behind. */
module Fragmentation {
  import opened Basics
  import opened Bytes
  import opened RespDecoder
  import opened RespMachine
  import RedisParsers

  /** The parser state `(l, fs)` is the one that has taken in `held`, the bytes of a reply that
      is not complete. */
  ghost predicate Holds(l: Lex, fs: seq<Frame>, held: seq<byte>)
  {
    Run(Start, [], held) == Paused(l, fs)
  }

  lemma HoldsNeedsMore(l: Lex, fs: seq<Frame>, held: seq<byte>)
    requires Holds(l, fs, held)
    ensures Decode(held).NeedMore?
  {
    RunIsDecode(held);
  }

  /** One more call of `parse`, on any bytes at all, reaches the verdict that decoding everything
      in one piece reaches, at the same place. */
  lemma ResumeMeetsDecoder(l: Lex, fs: seq<Frame>, held: seq<byte>, data: seq<byte>)
    requires Holds(l, fs, held)
    ensures var r := Run(l, fs, data);
            match Decode(held + data)
            case NeedMore => r.Paused? && Holds(r.lex, r.frames, held + data)
            case Done(v, n) => |held| < n <= |held| + |data| && r == Finished(v, n - |held|)
            case Bad(n) => |held| < n <= |held| + |data| && r == Failed(n - |held|)
  {
    RunAppend(Start, [], held, data);
    RunIsDecode(held + data);
    RunBounds(l, fs, data);
  }

  /** A decoding that has ended is not changed by bytes that follow. */
  lemma DecodeIsStable(a: seq<byte>, b: seq<byte>)
    requires !Decode(a).NeedMore?
    ensures Decode(a + b) == Decode(a)
  {
    RunAppend(Start, [], a, b);
    RunIsDecode(a);
    RunIsDecode(a + b);
  }

  /** The beginning of a reply is not a reply, and not an error. */
  lemma PrefixNeedsMore(r: Reply, part: seq<byte>)
    requires WellFormed(r) && part < Encode(r)
    ensures Decode(part).NeedMore?
  {
    hide Decode, Encode;
    var e := Encode(r);
    assert part + e[|part|..] == e == e + [];
    DecodeInvertsEncode(r, []);
    if !Decode(part).NeedMore? {
      DecodeIsStable(part, e[|part|..]);
    }
  }

  /** Where feeding one chunk after another stands: `calls` calls of `parse` were made, and the
      last of them answered `last`. */
  datatype Feeding = Feeding(calls: nat, last: Status)

  /** Call `parse` on chunk after chunk until it no longer answers Incompleted. */
  ghost function Feed(l: Lex, fs: seq<Frame>, chunks: seq<seq<byte>>): Feeding
    decreases |chunks|
  {
    if chunks == [] then Feeding(0, Paused(l, fs))
    else
      match Run(l, fs, chunks[0])
      case Paused(l', fs') => var f := Feed(l', fs', chunks[1..]); Feeding(f.calls + 1, f.last)
      case Finished(v, n) => Feeding(1, Finished(v, n))
      case Failed(n) => Feeding(1, Failed(n))
  }

  /** Fragmentation independence for arbitrary, also malformed, bytes: cut anywhere, a stream is
      judged like the whole, and the judgement falls in the chunk that holds the deciding byte. */
  lemma {:induction false} FeedMeetsDecoder(l: Lex, fs: seq<Frame>, held: seq<byte>, chunks: seq<seq<byte>>)
    requires Holds(l, fs, held)
    ensures var f := Feed(l, fs, chunks);
            && f.calls <= |chunks|
            && match Decode(held + Concat(chunks))
               case NeedMore =>
                 f.last.Paused? && f.calls == |chunks|
                 && Holds(f.last.lex, f.last.frames, held + Concat(chunks))
               case Done(v, n) =>
                 f.last.Finished? && f.last.value == v && f.calls >= 1
                 && 1 <= f.last.used <= |chunks[f.calls - 1]|
                 && n == |held| + |Concat(chunks[..f.calls - 1])| + f.last.used
               case Bad(n) =>
                 f.last.Failed? && f.calls >= 1
                 && 1 <= f.last.used <= |chunks[f.calls - 1]|
                 && n == |held| + |Concat(chunks[..f.calls - 1])| + f.last.used
    decreases |chunks|
  {
    hide Run, Decode;
    if chunks == [] {
      assert held + Concat(chunks) == held;
      RunIsDecode(held);
    } else {
      var c := chunks[0];
      var tail := Concat(chunks[1..]);
      Associative(held, c, tail);
      ResumeMeetsDecoder(l, fs, held, c);
      RunBounds(l, fs, c);
      var r := Run(l, fs, c);
      if r.Paused? {
        FeedMeetsDecoder(r.lex, r.frames, held + c, chunks[1..]);
        var f := Feed(r.lex, r.frames, chunks[1..]);
        if !f.last.Paused? {
          assert chunks[..f.calls][1..] == chunks[1..][..f.calls - 1];
          assert chunks[..f.calls][0] == c;
        }
      } else {
        DecodeIsStable(held + c, tail);
        assert chunks[..0] == [];
      }
    }
  }

  /** For every reply of any nesting depth and every cut of its encoding into non-empty pieces,
      `parse` answers Incompleted to all pieces but the last, and Completed with the reply's
      value at the last byte of the last piece. */
  lemma EncodingInPieces(r: Reply, chunks: seq<seq<byte>>)
    requires WellFormed(r) && Concat(chunks) == Encode(r)
    requires forall i :: 0 <= i < |chunks| ==> chunks[i] != []
    ensures chunks != []
    ensures Feed(Start, [], chunks) == Feeding(|chunks|, Finished(ValueOf(r), |chunks[|chunks| - 1]|))
  {
    hide Run, Decode, Encode;
    FreshHolds();
    FeedMeetsDecoder(Start, [], [], chunks);
    DecodeInvertsEncode(r, []);
    assert [] + Concat(chunks) == Encode(r) == Encode(r) + [];
    var k := Feed(Start, [], chunks).calls;
    assert chunks == chunks[..k - 1] + chunks[k - 1..];
    ConcatAppend(chunks[..k - 1], chunks[k - 1..]);
    assert chunks[k - 1..][1..] == chunks[k..];
  }

  // ---------------------------------------------------------------------------------------
  // A stream of replies

  /** Everything a byte stream says: its complete replies, the bytes of the one under way, and
      whether a byte was met that no reply can contain there. */
  datatype Stream = Stream(replies: seq<Value>, tail: seq<byte>, broken: bool)

  function DecodeAll(s: seq<byte>): Stream
    decreases |s|
  {
    match Decode(s)
    case NeedMore => Stream([], s, false)
    case Bad(n) => Stream([], s, true)
    case Done(v, n) => Stream([v] + DecodeAll(s[n..]).replies, DecodeAll(s[n..]).tail, DecodeAll(s[n..]).broken)
  }

  lemma {:induction false} DecodeAllAppend(s: seq<byte>, c: seq<byte>)
    requires !DecodeAll(s).broken
    ensures var d, e := DecodeAll(s), DecodeAll(DecodeAll(s).tail + c);
            && Decode(d.tail).NeedMore?
            && DecodeAll(s + c) == Stream(d.replies + e.replies, e.tail, e.broken)
    decreases |s|
  {
    hide Decode;
    var o := Decode(s);
    if o.Done? {
      DecodeIsStable(s, c);
      assert (s + c)[o.used..] == s[o.used..] + c;
      DecodeAllAppend(s[o.used..], c);
      Associative([o.value], DecodeAll(s[o.used..]).replies, DecodeAll(DecodeAll(s).tail + c).replies);
    } else {
      var e := DecodeAll(s + c);
      assert [] + e.replies == e.replies;
    }
  }

  /** A stream of encoded replies, and the beginning of one more, is those replies and that beginning. */
  lemma {:induction false} StreamOfReplies(rs: seq<Reply>, part: seq<byte>)
    requires forall i :: 0 <= i < |rs| ==> WellFormed(rs[i])
    requires Decode(part).NeedMore?
    ensures DecodeAll(EncodeAll(rs) + part) == Stream(ValuesOf(rs), part, false)
    decreases |rs|
  {
    hide Decode, Encode;
    if rs == [] {
      assert EncodeAll(rs) + part == part;
    } else {
      var e, tail := Encode(rs[0]), EncodeAll(rs[1..]) + part;
      Associative(e, EncodeAll(rs[1..]), part);
      DecodeInvertsEncode(rs[0], tail);
      assert (e + tail)[|e|..] == tail;
      StreamOfReplies(rs[1..], part);
    }
  }

  /** One call of `parse` in the middle of a stream: `s` was read before, `c` is read now. */
  lemma StreamStep(l: Lex, fs: seq<Frame>, s: seq<byte>, c: seq<byte>)
    requires !DecodeAll(s).broken && Holds(l, fs, DecodeAll(s).tail)
    ensures var d, r := DecodeAll(s), Run(l, fs, c);
            match r
            case Paused(l', fs') =>
              DecodeAll(s + c) == Stream(d.replies, d.tail + c, false) && Holds(l', fs', d.tail + c)
            case Finished(v, _) =>
              1 <= r.used <= |c| && DecodeAll(s + c[..r.used]) == Stream(d.replies + [v], [], false)
            case Failed(_) =>
              1 <= r.used <= |c| && DecodeAll(s + c) == Stream(d.replies, d.tail + c, true)
  {
    hide Run, Decode;
    var d, r := DecodeAll(s), Run(l, fs, c);
    ResumeMeetsDecoder(l, fs, d.tail, c);
    if r.Finished? {
      RunToItsEnd(l, fs, c);
      StreamCompletes(l, fs, s, c[..r.used]);
    } else {
      DecodeAllAppend(s, c);
      assert d.replies + [] == d.replies;
    }
  }

  lemma StreamCompletes(l: Lex, fs: seq<Frame>, s: seq<byte>, c: seq<byte>)
    requires !DecodeAll(s).broken && Holds(l, fs, DecodeAll(s).tail)
    requires Run(l, fs, c).Finished? && Run(l, fs, c).used == |c|
    ensures DecodeAll(s + c) == Stream(DecodeAll(s).replies + [Run(l, fs, c).value], [], false)
  {
    hide Run, Decode;
    var t := DecodeAll(s).tail;
    DecodeAllAppend(s, c);
    ResumeMeetsDecoder(l, fs, t, c);
    assert (t + c)[|t + c|..] == [];
    FreshHolds();
    HoldsNeedsMore(Start, [], []);
  }

  /** A run does not look past the byte that ends it. */
  lemma RunToItsEnd(l: Lex, fs: seq<Frame>, c: seq<byte>)
    requires Run(l, fs, c).Finished?
    ensures 1 <= Run(l, fs, c).used <= |c| && Run(l, fs, c[..Run(l, fs, c).used]) == Run(l, fs, c)
  {
    hide Run;
    RunBounds(l, fs, c);
    var n := Run(l, fs, c).used;
    assert c == c[..n] + c[n..];
    RunAppend(l, fs, c[..n], c[n..]);
    var q := Run(l, fs, c[..n]);
    if q.Paused? {
      RunBounds(q.lex, q.frames, c[n..]);
    }
  }

  // ---------------------------------------------------------------------------------------
  // What is suspended

  /** Between two reads of a bulk string, what was read so far and what is still missing add up
      to the declared length. */
  lemma BulkSuspension(n: nat, part: seq<byte>)
    requires |part| < n <= LONG_MAX
    ensures Run(Start, [], HeaderLine(DOLLAR, SignedDecimal(n)) + part) == Paused(Payload(part, n - |part|), [])
  {
    hide Run, HeaderLine, SignedDecimal, EndOfLine;
    HeaderRun(DOLLAR, n, part);
    RedisParsers.PayloadBlock([], n, part, 0, |part|);
    assert part[0..] == part && [] + part[0..0 + |part|] == part;
    assert part[|part|..] == [];
    RunNothing(Payload(part, n - |part|), []);
  }

  /** Between two reads of an array, its saved count is what the header declared less its complete
      elements; the element under way is still counted, and is suspended inside it. */
  lemma ArraySuspension(n: nat, rs: seq<Reply>, part: seq<byte>, l: Lex, fs: seq<Frame>)
    requires |rs| < n <= LONG_MAX && forall i :: 0 <= i < |rs| ==> WellFormed(rs[i])
    requires Holds(l, fs, part)
    ensures Holds(l, fs + [Frame(n - |rs|, ValuesOf(rs))],
                  HeaderLine(STAR, SignedDecimal(n)) + (EncodeAll(rs) + part))
  {
    hide Run, Decode, Encode, EncodeAll, Strtol, SignedDecimal, HeaderLine, EndOfLine;
    var body := EncodeAll(rs) + part;
    var f := Frame(n - |rs|, ValuesOf(rs));
    HeaderOpensArray(n, body);
    ElementsRun(n, [], rs, part);
    assert [] + ValuesOf(rs) == ValuesOf(rs);
    InsideFrame(l, fs, part, f);
    LaterTwice(Paused(l, fs + [f]), |EncodeAll(rs)|, |SignedDecimal(n)| + 3);
  }

  lemma HeaderOpensArray(n: nat, body: seq<byte>)
    requires 1 <= n <= LONG_MAX
    ensures Run(Start, [], HeaderLine(STAR, SignedDecimal(n)) + body)
            == Later(Run(Start, [Frame(n, [])], body), |SignedDecimal(n)| + 3)
  {
    hide Run;
    HeaderRun(STAR, n, body);
    assert [Frame(n, [])] + [] == [Frame(n, [])];
  }

  lemma InsideFrame(l: Lex, fs: seq<Frame>, part: seq<byte>, f: Frame)
    requires Holds(l, fs, part)
    ensures Run(Start, [f], part) == Paused(l, fs + [f])
  {
    hide Run;
    RunInside(Start, [], [f], part);
    assert [] + [f] == [f];
  }

  /** Reading a length header and its CR LF. */
  lemma HeaderRun(head: byte, n: nat, rest: seq<byte>)
    requires head in {DOLLAR, STAR} && 1 <= n <= LONG_MAX
    ensures Run(Start, [], HeaderLine(head, SignedDecimal(n)) + rest)
            == Later(Resume(Apply(EndOfLine(head, SignedDecimal(n)), []), rest), |SignedDecimal(n)| + 3)
    ensures EndOfLine(head, SignedDecimal(n)) == if head == DOLLAR then Stay(Payload([], n)) else Open(n)
  {
    hide Run, SignedDecimal;
    var text := SignedDecimal(n);
    var s := HeaderLine(head, text) + rest;
    StrtolInvertsDecimal(n);
    HeaderIsLine(head, n, rest);
    LineRun(head, s, 1);
    StartsLine(head, s);
    LaterTwice(Resume(Apply(EndOfLine(head, text), []), rest), |text| + 2, 1);
  }

  lemma StartsLine(head: byte, s: seq<byte>)
    requires IsHead(head) && s != [] && s[0] == head
    ensures Run(Start, [], s) == Later(Run(Line(head, []), [], s[1..]), 1) && s[1..1] == []
  {
  }

  lemma HeaderIsLine(head: byte, n: nat, rest: seq<byte>)
    ensures var s, k := HeaderLine(head, SignedDecimal(n)) + rest, |SignedDecimal(n)|;
            && ReadLine(true, s) == Whole(SignedDecimal(n), k + 3) && 1 <= LineEnd(true, s, 1)
            && s[k + 3..] == rest && s[0] == head
  {
    var text := SignedDecimal(n);
    var s := HeaderLine(head, text) + rest;
    assert forall j :: 1 <= j < |text| + 1 ==> s[j] == text[j - 1];
    assert s[|text| + 1] == CR && s[|text| + 2] == LF;
    assert LineEnd(true, s, 1) == |text| + 1;
    assert s[1..|text| + 1] == text && s[|text| + 3..] == rest;
  }

  /** Complete elements of an unfinished array are counted off one by one. */
  lemma {:induction false} ElementsRun(n: nat, items: seq<Value>, rs: seq<Reply>, rest: seq<byte>)
    requires |rs| < n && forall i :: 0 <= i < |rs| ==> WellFormed(rs[i])
    ensures Run(Start, [Frame(n, items)], EncodeAll(rs) + rest)
            == Later(Run(Start, [Frame(n - |rs|, items + ValuesOf(rs))], rest), |EncodeAll(rs)|)
    decreases |rs|
  {
    hide Run, Decode, Encode;
    if rs == [] {
      assert EncodeAll(rs) + rest == rest && items + ValuesOf(rs) == items;
    } else {
      var e, v := Encode(rs[0]), ValueOf(rs[0]);
      var tail := EncodeAll(rs[1..]) + rest;
      Associative(e, EncodeAll(rs[1..]), rest);
      DecodeInvertsEncode(rs[0], tail);
      RunIsDecode(e + tail);
      assert (e + tail)[|e|..] == tail;
      assert [] + [Frame(n, items)] == [Frame(n, items)];
      RunInside(Start, [], [Frame(n, items)], e + tail);
      assert Deliver(v, [Frame(n, items)]) == Paused(Start, [Frame(n - 1, items + [v])] + [Frame(n, items)][1..]);
      assert [Frame(n - 1, items + [v])] + [Frame(n, items)][1..] == [Frame(n - 1, items + [v])];
      ElementsRun(n - 1, items + [v], rs[1..], rest);
      Associative(items, [v], ValuesOf(rs[1..]));
      LaterTwice(Run(Start, [Frame(n - |rs|, items + ValuesOf(rs))], rest), |EncodeAll(rs[1..])|, |e|);
    }
  }

  // ---------------------------------------------------------------------------------------
  // What an error leaves behind

  /** Bytes no reply can go on with after `l`. */
  function Garbage(l: Lex): seq<byte>
  {
    if l.Payload? then seq(l.left + 1, _ => 0) else [0]
  }

  lemma {:induction false} GarbageFails(l: Lex, fs: seq<Frame>)
    requires ValidLex(l)
    ensures Run(l, fs, Garbage(l)).Failed?
    decreases if l.Payload? then l.left else 0
  {
    if l.Payload? {
      var l' := StepLex(l, 0).lex;
      assert Garbage(l)[1..] == Garbage(l');
      GarbageFails(l', fs);
    }
  }

  /** What an error leaves behind: every array around the one that was being completed when the byte
      was rejected, and neither that one nor any array inside it. */
  lemma {:induction false} ResidueExactly(l: Lex, fs: seq<Frame>, s: seq<byte>)
    requires Run(l, fs, s).Failed?
    ensures var r := RedisParsers.Residue(l, fs, s);
            var k := |fs| - |r|;
            && 0 <= k && r == fs[k..] && (fs != [] ==> k >= 1)
            && (forall j :: k <= j <= |fs| ==> Run(l, fs[..j], s).Failed?)
            && (k > 1 ==> Run(l, fs[..k - 1], s).Finished?)
    decreases |fs|
  {
    hide Run, RedisParsers.Residue;
    assert fs[..|fs|] == fs;
    RedisParsers.NoResidue(l, s);
    if fs != [] {
      var inner, outer := fs[..|fs| - 1], fs[|fs| - 1];
      assert fs == inner + [outer];
      RedisParsers.ResidueOf(l, inner, outer, s);
      RedisParsers.RunInsideOne(l, inner, outer, s);
      if |fs| > 1 && Run(l, inner, s).Failed? {
        ResidueExactly(l, inner, s);
        var k := |inner| - |RedisParsers.Residue(l, inner, s)|;
        OuterSlices(inner, outer, k);
        forall j | k <= j <= |fs| ensures Run(l, fs[..j], s).Failed? {
          if j < |fs| { assert fs[..j] == inner[..j]; }
        }
      }
    }
  }

  lemma OuterSlices(inner: seq<Frame>, outer: Frame, k: nat)
    requires k <= |inner|
    ensures (inner + [outer])[k..] == inner[k..] + [outer]
    ensures k > 0 ==> (inner + [outer])[..k - 1] == inner[..k - 1]
  {
  }

  /** A parser is as good as new after every possible error if and only if at most one array was
      suspended when `parse` was called. With two or more, the arrays around the broken one stay
      on the stacks. */
  lemma CleanAfterError(l: Lex, fs: seq<Frame>)
    requires ValidLex(l)
    ensures |fs| <= 1 <==>
            forall s: seq<byte> :: Run(l, fs, s).Failed? ==> RedisParsers.Residue(l, fs, s) == []
  {
    if |fs| > 1 {
      var s := Garbage(l);
      GarbageFails(l, fs);
      GarbageFails(l, fs[..|fs| - 1]);
      assert Run(l, fs, s).Failed? && RedisParsers.Residue(l, fs, s) != [];
    }
  }

  /** An input that shows it: `*1 *1`, and a bad byte in the next read, leave the outer array
      behind. */
  lemma ErrorLeavesOuterArray()
    ensures var open, outer := HeaderLine(STAR, SignedDecimal(1)), Frame(1, []);
            && Holds(Start, [outer, outer], open + open)
            && Run(Start, [outer, outer], [0]).Failed?
            && RedisParsers.Residue(Start, [outer, outer], [0]) == [outer]
  {
    hide Run, HeaderLine, SignedDecimal;
    var open, outer := HeaderLine(STAR, SignedDecimal(1)), Frame(1, []);
    FreshHolds();
    NothingYet(1, [], [], Start);
    assert open + [] == open && [] + [outer] == [outer] && [outer] + [outer] == [outer, outer];
    NothingYet(1, open, [outer], Start);
    RejectsZero([outer, outer]);
    RejectsZero([outer]);
    assert [outer, outer][..1] == [outer];
  }

  /** The consequence: the next reply, whatever it is, is taken for the missing element of the
      abandoned array. */
  lemma MisreadAfterError(r: Reply)
    requires WellFormed(r)
    ensures Run(Start, [], Encode(r)) == Finished(ValueOf(r), |Encode(r)|)
    ensures Run(Start, [Frame(1, [])], Encode(r)) == Finished(Array([ValueOf(r)]), |Encode(r)|)
  {
    hide Run, Decode, Encode;
    var e, v, outer := Encode(r), ValueOf(r), Frame(1, []);
    DecodeInvertsEncode(r, []);
    assert e + [] == e;
    RunIsDecode(e);
    RunInside(Start, [], [outer], e);
    assert [] + [outer] == [outer];
    assert [outer][1..] == [] && outer.items + [v] == [v];
    assert Deliver(v, [outer]) == Finished(Array([v]), 0);
  }

  lemma FreshHolds()
    ensures Holds(Start, [], [])
  {
  }

  lemma RejectsZero(fs: seq<Frame>)
    ensures Run(Start, fs, [0]) == Failed(1)
  {
  }

  /** An array of which no element is complete. */
  lemma NothingYet(n: nat, part: seq<byte>, fs: seq<Frame>, l: Lex)
    requires 1 <= n <= LONG_MAX && Holds(l, fs, part)
    ensures Holds(l, fs + [Frame(n, [])], HeaderLine(STAR, SignedDecimal(n)) + part)
  {
    ArraySuspension(n, [], part, l, fs);
    assert EncodeAll([]) + part == part;
  }
}
