/** The parser as a byte machine. One step reads one byte; an array under construction is a
    frame, innermost first. Runs of the machine compose over concatenation, which is what
    makes fragmentation harmless, and a run from the start is the recursive-descent decoder. */
module RespMachine {
  import opened Bytes
  import opened RespDecoder

  /** Where the machine is inside one non-array reply or one array header. `Line` and `LineLF`
      remember the type byte of the reply they are reading. */
  datatype Lex =
    | Start
    | Line(head: byte, buf: seq<byte>)
    | LineLF(head: byte, buf: seq<byte>)
    | Payload(buf: seq<byte>, left: nat)
    | PayloadCR(buf: seq<byte>)
    | PayloadLF(buf: seq<byte>)

  predicate IsHead(c: byte) { c in {PLUS, MINUS, COLON, DOLLAR, STAR} }

  predicate IsNumericHead(c: byte) { c !in {PLUS, MINUS} }

  predicate ValidLex(l: Lex)
  {
    match l
    case Line(h, b) => IsHead(h) && forall i :: 0 <= i < |b| ==> Accepts(IsNumericHead(h), b[i])
    case LineLF(h, b) => IsHead(h)
    case Payload(b, n) => n >= 1
    case _ => true
  }

  /** An unfinished array: `left` elements are missing, counting the one being read. */
  datatype Frame = Frame(left: int, items: seq<Value>)

  /** Effect of one byte on the lexical state. */
  datatype Token = Stay(lex: Lex) | Give(value: Value) | Open(count: int) | Reject

  function EndOfLine(head: byte, text: seq<byte>): Token
  {
    if head == PLUS then Give(Bulk(text))
    else if head == MINUS then Give(ErrorReply(text))
    else
      var n := Strtol(text);
      if head == DOLLAR then
        if n == -1 then Give(Nil)
        else if n < 0 then Reject
        else if n == 0 then Stay(PayloadCR([]))
        else Stay(Payload([], n))
      else if head == STAR then
        if n == -1 || n == 0 then Give(Array([])) else if n < 0 then Reject else Open(n)
      else Give(Int(n))
  }

  function StepLex(l: Lex, c: byte): Token
  {
    match l
    case Start => if IsHead(c) then Stay(Line(c, [])) else Reject
    case Line(h, b) =>
      if c == CR then if IsNumericHead(h) && b == [] then Reject else Stay(LineLF(h, b))
      else if Accepts(IsNumericHead(h), c) then Stay(Line(h, b + [c]))
      else Reject
    case LineLF(h, b) => if c == LF then EndOfLine(h, b) else Reject
    case Payload(b, n) => Stay(if n <= 1 then PayloadCR(b + [c]) else Payload(b + [c], n - 1))
    case PayloadCR(b) => if c == CR then Stay(PayloadLF(b)) else Reject
    case PayloadLF(b) => if c == LF then Give(Bulk(b)) else Reject
  }

  /** Where a run stands: still reading, or ended after `used` more bytes. */
  datatype Status =
    | Paused(lex: Lex, frames: seq<Frame>)
    | Finished(value: Value, used: nat)
    | Failed(used: nat)

  function Later(r: Status, k: nat): Status
  {
    match r
    case Paused(l, fs) => r
    case Finished(v, n) => Finished(v, n + k)
    case Failed(n) => Failed(n + k)
  }

  /** Hand a complete value to the innermost frame; full frames collapse outwards. */
  function Deliver(v: Value, fs: seq<Frame>): Status
    decreases |fs|
  {
    if fs == [] then Finished(v, 0)
    else if fs[0].left == 1 then Deliver(Array(fs[0].items + [v]), fs[1..])
    else Paused(Start, [Frame(fs[0].left - 1, fs[0].items + [v])] + fs[1..])
  }

  function Apply(t: Token, fs: seq<Frame>): Status
  {
    match t
    case Stay(l) => Paused(l, fs)
    case Give(v) => Deliver(v, fs)
    case Open(n) => Paused(Start, [Frame(n, [])] + fs)
    case Reject => Failed(0)
  }

  /** Run over `s` until a reply is complete, a byte is rejected, or `s` is used up. */
  function Run(l: Lex, fs: seq<Frame>, s: seq<byte>): Status
    decreases |s|, 0
  {
    if s == [] then Paused(l, fs)
    else Later(Resume(Apply(StepLex(l, s[0]), fs), s[1..]), 1)
  }

  function Resume(r: Status, s: seq<byte>): Status
    decreases |s|, 1
  {
    match r
    case Paused(l, fs) => Run(l, fs, s)
    case Finished(v, n) => r
    case Failed(n) => r
  }

  // ---------------------------------------------------------------------------------------
  // Composition

  /** A run ends inside its input, and ends at least one byte into it. */
  lemma {:induction false} RunBounds(l: Lex, fs: seq<Frame>, s: seq<byte>)
    ensures Run(l, fs, s).Finished? ==> 1 <= Run(l, fs, s).used <= |s|
    ensures Run(l, fs, s).Failed? ==> 1 <= Run(l, fs, s).used <= |s|
    decreases |s|
  {
    if s != [] {
      var r := Apply(StepLex(l, s[0]), fs);
      StepUsesNothing(StepLex(l, s[0]), fs);
      if r.Paused? { RunBounds(r.lex, r.frames, s[1..]); }
    }
  }

  lemma {:induction false} StepUsesNothing(t: Token, fs: seq<Frame>)
    ensures Apply(t, fs).Finished? ==> Apply(t, fs).used == 0
    ensures Apply(t, fs).Failed? ==> Apply(t, fs).used == 0
  {
    if t.Give? { DeliverUsesNothing(t.value, fs); }
  }

  lemma {:induction false} DeliverUsesNothing(v: Value, fs: seq<Frame>)
    ensures !Deliver(v, fs).Failed?
    ensures Deliver(v, fs).Finished? ==> Deliver(v, fs).used == 0
    decreases |fs|
  {
    if fs != [] && fs[0].left == 1 { DeliverUsesNothing(Array(fs[0].items + [v]), fs[1..]); }
  }

  /** Reading `a + b` is reading `a` and, if that did not end the reply, going on with `b`. */
  lemma {:induction false} RunAppend(l: Lex, fs: seq<Frame>, a: seq<byte>, b: seq<byte>)
    ensures Run(l, fs, a + b) == match Run(l, fs, a)
                                 case Paused(l', fs') => Later(Run(l', fs', b), |a|)
                                 case Finished(v, n) => Finished(v, n)
                                 case Failed(n) => Failed(n)
    decreases |a|
  {
    if a == [] {
      assert a + b == b;
    } else {
      assert (a + b)[1..] == a[1..] + b;
      var r := Apply(StepLex(l, a[0]), fs);
      if r.Paused? { RunAppend(r.lex, r.frames, a[1..], b); }
    }
  }

  /** An array around a run waits for the run: `outer` takes no part until the inner frames
      have produced their value, and then receives exactly that value. */
  lemma {:induction false} RunInside(l: Lex, inner: seq<Frame>, outer: seq<Frame>, s: seq<byte>)
    ensures Run(l, inner + outer, s) == Around(Run(l, inner, s), outer, s)
    decreases |s|
  {
    if s != [] {
      var t := StepLex(l, s[0]);
      var r := Apply(t, inner);
      StepUsesNothing(t, inner);
      RunBounds(l, inner, s);
      ApplyInside(t, inner, outer);
      if r.Paused? {
        RunInside(r.lex, r.frames, outer, s[1..]);
        var q := Run(r.lex, r.frames, s[1..]);
        RunBounds(r.lex, r.frames, s[1..]);
        if q.Finished? {
          assert s[1..][q.used..] == s[q.used + 1..];
          LaterTwice(Resume(Deliver(q.value, outer), s[q.used + 1..]), q.used, 1);
        }
      }
    }
  }

  function Around(r: Status, outer: seq<Frame>, s: seq<byte>): Status
  {
    match r
    case Paused(l, fs) => Paused(l, fs + outer)
    case Failed(n) => Failed(n)
    case Finished(v, n) => if n <= |s| then Later(Resume(Deliver(v, outer), s[n..]), n) else r
  }

  lemma LaterTwice(r: Status, a: nat, b: nat)
    ensures Later(Later(r, a), b) == Later(r, a + b)
  {
  }

  lemma {:induction false} ApplyInside(t: Token, inner: seq<Frame>, outer: seq<Frame>)
    ensures Apply(t, inner + outer) == match Apply(t, inner)
                                       case Paused(l, fs) => Paused(l, fs + outer)
                                       case Finished(v, n) => Deliver(v, outer)
                                       case Failed(n) => Failed(n)
  {
    match t
    case Give(v) => DeliverInside(v, inner, outer);
    case Open(n) => assert [Frame(n, [])] + (inner + outer) == [Frame(n, [])] + inner + outer;
    case _ =>
  }

  lemma {:induction false} DeliverInside(v: Value, inner: seq<Frame>, outer: seq<Frame>)
    ensures Deliver(v, inner + outer) == match Deliver(v, inner)
                                         case Paused(l, fs) => Paused(l, fs + outer)
                                         case Finished(w, n) => Deliver(w, outer)
                                         case Failed(n) => Failed(n)
    decreases |inner|
  {
    if inner == [] {
      assert inner + outer == outer;
    } else {
      assert (inner + outer)[1..] == inner[1..] + outer;
      if inner[0].left == 1 {
        DeliverInside(Array(inner[0].items + [v]), inner[1..], outer);
      } else {
        var f := Frame(inner[0].left - 1, inner[0].items + [v]);
        assert [f] + (inner[1..] + outer) == [f] + inner[1..] + outer;
      }
    }
  }

  // ---------------------------------------------------------------------------------------
  // The machine is the decoder

  /** A run and a decoding agree on the verdict, the value and the offset. */
  predicate Agree(r: Status, o: Outcome)
  {
    match o
    case NeedMore => r.Paused?
    case Done(v, n) => r == Finished(v, n)
    case Bad(n) => r == Failed(n)
  }

  /** Main theorem: a run from the start reaches exactly the decoder's outcome. */
  lemma {:induction false} RunIsDecode(s: seq<byte>)
    ensures Agree(Run(Start, [], s), Decode(s))
    decreases |s|, 0, 0
  {
    if s != [] && IsHead(s[0]) {
      assert s[1..1] == [];
      assert Run(Start, [], s) == Later(Run(Line(s[0], []), [], s[1..]), 1);
      LineRun(s[0], s, 1);
      var l := ReadLine(IsNumericHead(s[0]), s);
      if l.Whole? {
        var t := EndOfLine(s[0], l.text);
        if t != Reject {
          BodyRun(s[0], l.text, s[l.used..]);
          LaterTwice(Resume(Apply(t, []), s[l.used..]), l.used - 1, 1);
        }
      }
    }
  }

  /** From byte `i` of a line that is acceptable so far, the run ends the line as `ReadLine` does. */
  lemma {:induction false} LineRun(head: byte, s: seq<byte>, i: nat)
    requires IsHead(head) && s != [] && 1 <= i <= LineEnd(IsNumericHead(head), s, 1)
    ensures EndsLine(Run(Line(head, s[1..i]), [], s[i..]), head, s, i)
    decreases |s| - i
  {
    hide Run;
    if i == LineEnd(IsNumericHead(head), s, 1) {
      LineStop(head, s, i);
    } else {
      LineByte(head, s, i);
      LineRun(head, s, i + 1);
      var l := ReadLine(IsNumericHead(head), s);
      if l.Whole? {
        LaterTwice(Resume(Apply(EndOfLine(head, l.text), []), s[l.used..]), l.used - i - 1, 1);
      }
    }
  }

  /** One more byte of a line. */
  lemma LineByte(head: byte, s: seq<byte>, i: nat)
    requires 1 <= i < |s| && Accepts(IsNumericHead(head), s[i])
    ensures Run(Line(head, s[1..i]), [], s[i..]) == Later(Run(Line(head, s[1..i + 1]), [], s[i + 1..]), 1)
  {
    assert s[i..][0] == s[i] && s[i..][1..] == s[i + 1..];
    assert s[1..i] + [s[i]] == s[1..i + 1];
  }

  /** `r`, a run that set out at byte `i`, ends the line at the front of `s` as `ReadLine` does. */
  predicate EndsLine(r: Status, head: byte, s: seq<byte>, i: nat)
    requires s != []
  {
    match ReadLine(IsNumericHead(head), s)
    case Partial => r.Paused?
    case Broken(u) => u >= i && r == Failed(u - i)
    case Whole(text, u) =>
      u >= i && r == Later(Resume(Apply(EndOfLine(head, text), []), s[u..]), u - i)
  }

  lemma LineStop(head: byte, s: seq<byte>, k: nat)
    requires IsHead(head) && s != [] && k == LineEnd(IsNumericHead(head), s, 1)
    ensures EndsLine(Run(Line(head, s[1..k]), [], s[k..]), head, s, k)
  {
    hide Run;
    var text := s[1..k];
    if k == |s| {
      RunNothing(Line(head, text), []);
    } else {
      assert s[k..][0] == s[k] && s[k..][1..] == s[k + 1..];
      RunStep(Line(head, text), [], s[k..]);
      RunNothing(LineLF(head, text), []);
      if s[k] == CR && !(IsNumericHead(head) && k == 1) && k + 1 < |s| {
        LineFeed(head, text, s[k + 1..]);
        assert s[k + 1..][1..] == s[k + 2..];
        LaterTwice(Resume(Apply(EndOfLine(head, text), []), s[k + 2..]), 1, 1);
      }
    }
  }

  lemma RunNothing(l: Lex, fs: seq<Frame>)
    ensures Run(l, fs, []) == Paused(l, fs)
  {
  }

  lemma RunStep(l: Lex, fs: seq<Frame>, s: seq<byte>)
    requires s != []
    ensures Run(l, fs, s) == Later(Resume(Apply(StepLex(l, s[0]), fs), s[1..]), 1)
  {
  }

  lemma LineFeed(head: byte, text: seq<byte>, s: seq<byte>)
    requires s != []
    ensures Run(LineLF(head, text), [], s)
            == if s[0] == LF then Later(Resume(Apply(EndOfLine(head, text), []), s[1..]), 1) else Failed(1)
  {
  }

  lemma {:induction false} BodyRun(head: byte, text: seq<byte>, s: seq<byte>)
    requires IsHead(head) && EndOfLine(head, text) != Reject
    ensures head in {DOLLAR, STAR} ==> -1 <= Strtol(text)
    ensures Agree(Resume(Apply(EndOfLine(head, text), []), s), DecodeBody(head, text, s))
    decreases |s|, 2, 0
  {
    var n := Strtol(text);
    if head == DOLLAR && n >= 0 {
      PayloadRun(n, s, 0);
    } else if head == STAR && n > 0 {
      assert [Frame(n, [])] + [] == [Frame(n, [])];
      ItemsRun(n, [], s);
    }
  }

  /** `i` payload bytes into a bulk string of length `n`. */
  lemma {:induction false} PayloadRun(n: nat, s: seq<byte>, i: nat)
    requires i <= n && i <= |s|
    ensures var l := if i < n then Payload(s[..i], n - i) else PayloadCR(s[..i]);
            Agree(Later(Run(l, [], s[i..]), i), ReadPayload(n, s))
    decreases |s| - i
  {
    if i < n && i < |s| {
      assert s[i..][1..] == s[i + 1..];
      assert s[..i] + [s[i]] == s[..i + 1];
      PayloadRun(n, s, i + 1);
    } else if i < |s| {
      assert s[i..][1..] == s[i + 1..];
      if s[i] == CR && i + 1 < |s| {
        assert Run(PayloadLF(s[..i]), [], s[i + 1..])
            == Later(Resume(Apply(StepLex(PayloadLF(s[..i]), s[i + 1]), []), s[i + 1..][1..]), 1);
      }
    }
  }

  lemma {:induction false} ItemsRun(n: nat, items: seq<Value>, s: seq<byte>)
    requires n >= 1
    ensures Agree(Run(Start, [Frame(n, items)], s), DecodeItems(n, items, s))
    decreases |s|, 1, n
  {
    // the element at the front of `s` runs on its own, inside the frame
    RunIsDecode(s);
    RunInside(Start, [], [Frame(n, items)], s);
    assert [] + [Frame(n, items)] == [Frame(n, items)];
    var o := Decode(s);
    if o.Done? {
      assert [Frame(n, items)][1..] == [];
      if n > 1 {
        ItemsRun(n - 1, items + [o.value], s[o.used..]);
        assert Deliver(o.value, [Frame(n, items)]) == Paused(Start, [Frame(n - 1, items + [o.value])]);
      } else {
        assert Deliver(o.value, [Frame(n, items)]) == Finished(Array(items + [o.value]), 0);
      }
    }
  }
}
