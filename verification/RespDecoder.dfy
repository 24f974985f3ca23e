/** RESP replies: the values a client sees, the wire form a server sends, and a plain
    recursive-descent decoder that reads a whole byte string at once. The decoder is the
    reference the resumable parser is measured against. */
module RespDecoder {
  import opened Basics
  import opened Bytes

  const PLUS: byte := 43
  const COLON: byte := 58
  const DOLLAR: byte := 36
  const STAR: byte := 42

  /** What the parser hands to its client. */
  datatype Value =
    | Nil
    | Int(i: int)
    | Bulk(bytes: seq<byte>)
    | ErrorReply(bytes: seq<byte>)
    | Array(items: seq<Value>)

  datatype Outcome = Done(value: Value, used: nat) | Bad(used: nat) | NeedMore

  function Shift(o: Outcome, k: nat): Outcome
  {
    match o
    case Done(v, n) => Done(v, n + k)
    case Bad(n) => Bad(n + k)
    case NeedMore => NeedMore
  }

  /** Characters a status or error line may hold: 7-bit and not a control character. */
  predicate IsText(c: byte) { 32 <= c <= 126 }

  /** Characters a length or integer line may hold. */
  predicate IsNumeric(c: byte) { IsDigit(c) || c == MINUS }

  predicate Accepts(numeric: bool, c: byte)
  {
    if numeric then IsNumeric(c) else IsText(c)
  }

  /** First index at or after `i` whose byte does not belong to the line. */
  function LineEnd(numeric: bool, s: seq<byte>, i: nat): (k: nat)
    requires i <= |s|
    ensures i <= k <= |s|
    ensures k < |s| ==> !Accepts(numeric, s[k])
    ensures forall j :: i <= j < k ==> Accepts(numeric, s[j])
    decreases |s| - i
  {
    if i < |s| && Accepts(numeric, s[i]) then LineEnd(numeric, s, i + 1) else i
  }

  datatype Line = Whole(text: seq<byte>, used: nat) | Broken(used: nat) | Partial

  /** The CR LF terminated line that follows the type byte of `s`. */
  function ReadLine(numeric: bool, s: seq<byte>): (l: Line)
    requires s != []
    ensures l.Whole? ==> 3 <= l.used <= |s| && l.text == s[1..l.used - 2]
    ensures l.Broken? ==> 2 <= l.used <= |s|
  {
    var k := LineEnd(numeric, s, 1);
    if k == |s| then Partial
    else if s[k] != CR || (numeric && k == 1) then Broken(k + 1)
    else if k + 1 == |s| then Partial
    else if s[k + 1] != LF then Broken(k + 2)
    else Whole(s[1..k], k + 2)
  }

  /** `n` payload bytes of `s` and their CR LF. */
  function ReadPayload(n: nat, s: seq<byte>): (o: Outcome)
    ensures o.Done? ==> o.used == n + 2 <= |s| && o.value == Bulk(s[..n])
    ensures o.Bad? ==> 1 <= o.used <= |s|
  {
    if |s| <= n then NeedMore
    else if s[n] != CR then Bad(n + 1)
    else if |s| == n + 1 then NeedMore
    else if s[n + 1] != LF then Bad(n + 2)
    else Done(Bulk(s[..n]), n + 2)
  }

  /** Decode one reply at the front of `s`. */
  function Decode(s: seq<byte>): (o: Outcome)
    ensures o.Done? ==> 1 <= o.used <= |s|
    ensures o.Bad? ==> 1 <= o.used <= |s|
    decreases |s|, 0, 0
  {
    if s == [] then NeedMore
    else if s[0] !in {PLUS, MINUS, COLON, DOLLAR, STAR} then Bad(1)
    else
      match ReadLine(s[0] !in {PLUS, MINUS}, s)
      case Partial => NeedMore
      case Broken(u) => Bad(u)
      case Whole(text, u) =>
        // a length no array or bulk string can have is refused at the end of its line
        if s[0] in {DOLLAR, STAR} && Strtol(text) < -1 then Bad(u)
        else Shift(DecodeBody(s[0], text, s[u..]), u)
  }

  /** What follows a complete line `head text`, where `s` starts right after its CR LF. */
  function DecodeBody(head: byte, text: seq<byte>, s: seq<byte>): (o: Outcome)
    requires head in {DOLLAR, STAR} ==> -1 <= Strtol(text)
    ensures o.Done? ==> o.used <= |s|
    ensures o.Bad? ==> 1 <= o.used <= |s|
    decreases |s|, 2, 0
  {
    if head == PLUS then Done(Bulk(text), 0)
    else if head == MINUS then Done(ErrorReply(text), 0)
    else
      var n := Strtol(text);
      if head == DOLLAR then
        if n == -1 then Done(Nil, 0) else ReadPayload(n, s)
      else if head == STAR then
        if n <= 0 then Done(Array([]), 0) else DecodeItems(n, [], s)
      else Done(Int(n), 0)
  }

  /** Decode `n` more elements of an array that already has `items`. */
  function DecodeItems(n: nat, items: seq<Value>, s: seq<byte>): (o: Outcome)
    ensures o.Done? ==> o.used <= |s|
    ensures o.Bad? ==> 1 <= o.used <= |s|
    decreases |s|, 1, n
  {
    if n == 0 then Done(Array(items), 0)
    else
      match Decode(s)
      case NeedMore => NeedMore
      case Bad(u) => Bad(u)
      case Done(v, u) => Shift(DecodeItems(n - 1, items + [v], s[u..]), u)
  }

  // ---------------------------------------------------------------------------------------
  // The wire form

  /** A reply as a server sends it. */
  datatype Reply =
    | Status(text: seq<byte>)
    | Failure(text: seq<byte>)
    | Number(n: int)
    | Blob(payload: seq<byte>)
    | NullBlob
    | NullArray
    | Multi(replies: seq<Reply>)

  /** 7-bit bytes that are no control characters. */
  predicate IsPrintable(t: seq<byte>)
  {
    forall i :: 0 <= i < |t| ==> t[i] <= 127 && !(t[i] <= 31 || t[i] == 127)
  }

  /** Replies RESP can carry: printable status lines, and lengths and integers of a `long`. */
  predicate WellFormed(r: Reply)
  {
    match r
    case Status(t) => IsPrintable(t)
    case Failure(t) => IsPrintable(t)
    case Number(n) => LONG_MIN <= n <= LONG_MAX
    case Blob(p) => |p| <= LONG_MAX
    case NullBlob => true
    case NullArray => true
    case Multi(rs) => |rs| <= LONG_MAX && forall i :: 0 <= i < |rs| ==> WellFormed(rs[i])
  }

  /** The value a client reads: a null array arrives as an empty one. */
  function ValueOf(r: Reply): Value
  {
    match r
    case Status(t) => Bulk(t)
    case Failure(t) => ErrorReply(t)
    case Number(n) => Int(n)
    case Blob(p) => Bulk(p)
    case NullBlob => Nil
    case NullArray => Array([])
    case Multi(rs) => Array(ValuesOf(rs))
  }

  function ValuesOf(rs: seq<Reply>): (vs: seq<Value>)
    ensures |vs| == |rs|
    ensures forall i :: 0 <= i < |rs| ==> vs[i] == ValueOf(rs[i])
  {
    if rs == [] then [] else [ValueOf(rs[0])] + ValuesOf(rs[1..])
  }

  /** A type byte, a line of text and CR LF. */
  function HeaderLine(head: byte, text: seq<byte>): (s: seq<byte>)
    ensures |s| == |text| + 3
  {
    [head] + text + CRLF
  }

  function Encode(r: Reply): (s: seq<byte>)
    ensures s != []
  {
    match r
    case Status(t) => HeaderLine(PLUS, t)
    case Failure(t) => HeaderLine(MINUS, t)
    case Number(n) => HeaderLine(COLON, SignedDecimal(n))
    case Blob(p) => HeaderLine(DOLLAR, SignedDecimal(|p|)) + (p + CRLF)
    case NullBlob => HeaderLine(DOLLAR, SignedDecimal(-1))
    case NullArray => HeaderLine(STAR, SignedDecimal(-1))
    case Multi(rs) => HeaderLine(STAR, SignedDecimal(|rs|)) + EncodeAll(rs)
  }

  function EncodeAll(rs: seq<Reply>): seq<byte>
  {
    if rs == [] then [] else Encode(rs[0]) + EncodeAll(rs[1..])
  }

  // ---------------------------------------------------------------------------------------
  // Decoding inverts encoding

  /** A line survives its own CR LF, whatever follows. */
  lemma DecodesOwnLine(head: byte, text: seq<byte>, rest: seq<byte>)
    requires head in {PLUS, MINUS, COLON, DOLLAR, STAR}
    requires forall i :: 0 <= i < |text| ==> Accepts(head !in {PLUS, MINUS}, text[i])
    requires head !in {PLUS, MINUS} ==> text != []
    requires head in {DOLLAR, STAR} ==> -1 <= Strtol(text)
    ensures Decode(HeaderLine(head, text) + rest) == Shift(DecodeBody(head, text, rest), |text| + 3)
  {
    var s := HeaderLine(head, text) + rest;
    var numeric := head !in {PLUS, MINUS};
    var k := |text| + 1;
    assert forall j :: 1 <= j < k ==> s[j] == text[j - 1];
    assert s[k] == CR && s[k + 1] == LF;
    assert LineEnd(numeric, s, 1) == k;
    assert s[1..k] == text;
    assert s[k + 2..] == rest;
  }

  /** The lines that are accepted, byte by byte: a status or error line of printable bytes is decoded to
      them and to its exact length, whatever follows; and the first other byte, unless it is the CR, is
      refused at its place. */
  lemma TextLines(head: byte, text: seq<byte>, c: byte, rest: seq<byte>)
    requires (head == 43 || head == 45) && IsPrintable(text)
    ensures Decode([head] + text + [13, 10] + rest)
            == Done(if head == 43 then Bulk(text) else ErrorReply(text), |text| + 3)
    ensures c != 13 && (c > 127 || c <= 31 || c == 127) ==> Decode([head] + text + [c] + rest) == Bad(|text| + 2)
    ensures c != 10 ==> Decode([head] + text + [13, c] + rest) == Bad(|text| + 3)
  {
    hide Decode;
    DecodesOwnLine(head, text, rest);
    assert [head] + text + [13, 10] + rest == HeaderLine(head, text) + rest;
    if c != 13 && !IsText(c) { RefusedAt(head, text, c, rest); }
    if c != 10 { RefusedAfterCR(head, text, c, rest); }
  }

  /** Length and integer lines: digits and '-', at least one of them. */
  lemma NumberLines(head: byte, text: seq<byte>, c: byte, rest: seq<byte>)
    requires head == 58 || head == 36 || head == 42
    requires forall i :: 0 <= i < |text| ==> 48 <= text[i] <= 57 || text[i] == 45
    ensures text != [] ==> Decode([58] + text + [13, 10] + rest) == Done(Int(Strtol(text)), |text| + 3)
    ensures c != 13 && !(48 <= c <= 57 || c == 45) ==> Decode([head] + text + [c] + rest) == Bad(|text| + 2)
    ensures text == [] ==> Decode([head] + text + [13] + rest) == Bad(2)
    ensures text != [] && c != 10 ==> Decode([head] + text + [13, c] + rest) == Bad(|text| + 3)
  {
    hide Decode;
    if text != [] {
      DecodesOwnLine(58, text, rest);
      assert [58] + text + [13, 10] + rest == HeaderLine(58, text) + rest;
    }
    if c != 13 && !IsNumeric(c) { RefusedAt(head, text, c, rest); }
    if text == [] { RefusedEmpty(head, rest); }
    if text != [] && c != 10 { RefusedAfterCR(head, text, c, rest); }
  }

  lemma RefusedAt(head: byte, text: seq<byte>, c: byte, rest: seq<byte>)
    requires head in {PLUS, MINUS, COLON, DOLLAR, STAR} && c != CR && !Accepts(head !in {PLUS, MINUS}, c)
    requires forall i :: 0 <= i < |text| ==> Accepts(head !in {PLUS, MINUS}, text[i])
    ensures Decode([head] + text + [c] + rest) == Bad(|text| + 2)
  {
    hide DecodeBody;
    LineStopsAt(head, text, c, rest);
  }

  lemma RefusedEmpty(head: byte, rest: seq<byte>)
    requires head in {COLON, DOLLAR, STAR}
    ensures Decode([head] + [] + [CR] + rest) == Bad(2)
  {
    hide DecodeBody;
    LineStopsAt(head, [], CR, rest);
  }

  lemma RefusedAfterCR(head: byte, text: seq<byte>, c: byte, rest: seq<byte>)
    requires head in {PLUS, MINUS, COLON, DOLLAR, STAR} && c != LF && (head !in {PLUS, MINUS} ==> text != [])
    requires forall i :: 0 <= i < |text| ==> Accepts(head !in {PLUS, MINUS}, text[i])
    ensures Decode([head] + text + [CR, c] + rest) == Bad(|text| + 3)
  {
    hide DecodeBody;
    LineStopsAt(head, text, CR, [c] + rest);
    assert [head] + text + [CR] + ([c] + rest) == [head] + text + [CR, c] + rest;
  }

  /** Where reading an acceptable text ends. */
  lemma LineStopsAt(head: byte, text: seq<byte>, c: byte, rest: seq<byte>)
    requires head in {PLUS, MINUS, COLON, DOLLAR, STAR}
    requires forall i :: 0 <= i < |text| ==> Accepts(head !in {PLUS, MINUS}, text[i])
    ensures var numeric, s, k := head !in {PLUS, MINUS}, [head] + text + [c] + rest, |text| + 1;
            && s[0] == head && s[k] == c && s[k + 1..] == rest
            && (!Accepts(numeric, c) ==> LineEnd(numeric, s, 1) == k && s[1..k] == text)
  {
    var s, k := [head] + text + [c] + rest, |text| + 1;
    assert forall j :: 1 <= j < k ==> s[j] == text[j - 1];
  }

  /** One reply of each kind, byte for byte. */
  lemma KnownReplies()
    ensures Encode(Status([79, 75])) == [43, 79, 75, 13, 10]
    ensures Encode(Failure([69])) == [45, 69, 13, 10]
    ensures Encode(Number(-1)) == [58, 45, 49, 13, 10]
    ensures Encode(Blob([104, 105])) == [36, 50, 13, 10, 104, 105, 13, 10]
    ensures Encode(NullBlob) == [36, 45, 49, 13, 10]
    ensures Encode(NullArray) == [42, 45, 49, 13, 10]
    ensures Encode(Multi([Number(-1), NullBlob])) == [42, 50, 13, 10, 58, 45, 49, 13, 10, 36, 45, 49, 13, 10]
  {
    hide SignedDecimal, EncodeAll;
    KnownNumbers();
    TwoReplies(Number(-1), NullBlob);
  }

  lemma TwoReplies(a: Reply, b: Reply)
    ensures EncodeAll([a, b]) == Encode(a) + Encode(b)
  {
    hide Encode;
    assert [a, b][1..] == [b] && [b][1..] == [];
    assert EncodeAll([b]) == Encode(b) + EncodeAll([]) == Encode(b);
  }

  /** Lengths below -1 are refused at the end of their line; -1 and 0 make an empty array, and -1 alone
      nil. */
  lemma OddLengths(n: int, rest: seq<byte>)
    requires n <= 0
    ensures var k := |SignedDecimal(n)| + 3;
            && Decode(HeaderLine(42, SignedDecimal(n)) + rest) == (if n < -1 then Bad(k) else Done(Array([]), k))
            && (n < 0 ==> Decode(HeaderLine(36, SignedDecimal(n)) + rest) == if n < -1 then Bad(k) else Done(Nil, k))
  {
    hide Decode, SignedDecimal;
    StrtolStops(n, []);
    assert SignedDecimal(n) + [] == SignedDecimal(n);
    if n < -1 {
      RefusesLength(42, SignedDecimal(n), rest);
      RefusesLength(36, SignedDecimal(n), rest);
    } else {
      DecodesOwnLine(42, SignedDecimal(n), rest);
      DecodesOwnLine(36, SignedDecimal(n), rest);
    }
  }

  lemma RefusesLength(head: byte, text: seq<byte>, rest: seq<byte>)
    requires head in {DOLLAR, STAR} && text != [] && Strtol(text) < -1
    requires forall i :: 0 <= i < |text| ==> IsNumeric(text[i])
    ensures Decode(HeaderLine(head, text) + rest) == Bad(|text| + 3)
  {
    hide DecodeBody, Strtol;
    LineStopsAt(head, text, CR, [LF] + rest);
    assert [head] + text + [CR] + ([LF] + rest) == HeaderLine(head, text) + rest;
  }

  lemma ReadsOwnPayload(p: seq<byte>, rest: seq<byte>)
    ensures ReadPayload(|p|, p + CRLF + rest) == Done(Bulk(p), |p| + 2)
  {
    var s := p + CRLF + rest;
    assert s[..|p|] == p;
  }

  lemma BlobDecodes(p: seq<byte>, rest: seq<byte>)
    requires |p| <= LONG_MAX
    ensures Decode(Encode(Blob(p)) + rest) == Done(Bulk(p), |Encode(Blob(p))|)
  {
    hide Decode, SignedDecimal, ReadPayload;
    var h := HeaderLine(DOLLAR, SignedDecimal(|p|));
    StrtolInvertsDecimal(|p|);
    DecodesOwnLine(DOLLAR, SignedDecimal(|p|), p + CRLF + rest);
    ReadsOwnPayload(p, rest);
    Associative(h, p + CRLF, rest);
  }

  lemma ArrayHeaderDecodes(n: nat, body: seq<byte>, rest: seq<byte>)
    requires n <= LONG_MAX
    ensures var h := HeaderLine(STAR, SignedDecimal(n));
            Decode(h + body + rest)
            == Shift(if n == 0 then Done(Array([]), 0) else DecodeItems(n, [], body + rest), |h|)
  {
    hide Decode, SignedDecimal;
    StrtolInvertsDecimal(n);
    DecodesOwnLine(STAR, SignedDecimal(n), body + rest);
    Associative(HeaderLine(STAR, SignedDecimal(n)), body, rest);
  }

  /** Round trip: whatever follows it, an encoded reply decodes to its value and to its
      exact length. */
  lemma {:induction false} DecodeInvertsEncode(r: Reply, rest: seq<byte>)
    requires WellFormed(r)
    ensures Decode(Encode(r) + rest) == Done(ValueOf(r), |Encode(r)|)
    decreases r, 0
  {
    hide Decode, SignedDecimal;
    match r
    case Status(t) =>
      DecodesOwnLine(PLUS, t, rest);
    case Failure(t) =>
      DecodesOwnLine(MINUS, t, rest);
    case Number(n) =>
      StrtolInvertsDecimal(n);
      DecodesOwnLine(COLON, SignedDecimal(n), rest);
    case Blob(p) =>
      BlobDecodes(p, rest);
    case NullBlob =>
      StrtolInvertsDecimal(-1);
      DecodesOwnLine(DOLLAR, SignedDecimal(-1), rest);
    case NullArray =>
      StrtolInvertsDecimal(-1);
      DecodesOwnLine(STAR, SignedDecimal(-1), rest);
    case Multi(rs) =>
      ArrayHeaderDecodes(|rs|, EncodeAll(rs), rest);
      if rs != [] {
        DecodeItemsInvertsEncodeAll(rs, [], rest);
        assert [] + ValuesOf(rs) == ValuesOf(rs);
      }
  }

  /** A reply begins with one of the five type bytes. */
  lemma UnknownType(c: byte, rest: seq<byte>)
    requires c != 43 && c != 45 && c != 58 && c != 36 && c != 42
    ensures Decode([c] + rest) == Bad(1)
  {
  }

  /** The payload of a bulk string must be followed by CR LF; the first byte that is not is refused at its
      place. */
  lemma PayloadEnds(p: seq<byte>, c: byte, rest: seq<byte>)
    requires |p| <= LONG_MAX
    ensures var h := HeaderLine(36, SignedDecimal(|p|));
            && (c != 13 ==> Decode(h + (p + [c] + rest)) == Bad(|h| + |p| + 1))
            && (c != 10 ==> Decode(h + (p + [13, c] + rest)) == Bad(|h| + |p| + 2))
  {
    hide Decode, SignedDecimal;
    var h := HeaderLine(36, SignedDecimal(|p|));
    StrtolInvertsDecimal(|p|);
    if c != 13 {
      DecodesOwnLine(36, SignedDecimal(|p|), p + [c] + rest);
      assert (p + [c] + rest)[|p|] == c;
    }
    if c != 10 {
      DecodesOwnLine(36, SignedDecimal(|p|), p + [13, c] + rest);
      assert (p + [13, c] + rest)[|p|] == 13 && (p + [13, c] + rest)[|p| + 1] == c;
    }
  }

  /** A bad byte in an element of an array is one of the array, at its place behind the elements before. */
  lemma {:induction false} BadElement(n: nat, rs: seq<Reply>, bad: seq<byte>)
    requires |rs| < n <= LONG_MAX && (forall i :: 0 <= i < |rs| ==> WellFormed(rs[i])) && Decode(bad).Bad?
    ensures var h := HeaderLine(42, SignedDecimal(n));
            Decode(h + (EncodeAll(rs) + bad)) == Bad(|h| + |EncodeAll(rs)| + Decode(bad).used)
  {
    hide Decode, SignedDecimal, EncodeAll;
    StrtolInvertsDecimal(n);
    DecodesOwnLine(42, SignedDecimal(n), EncodeAll(rs) + bad);
    BadItem(n, [], rs, bad);
  }

  lemma {:induction false} BadItem(n: nat, items: seq<Value>, rs: seq<Reply>, bad: seq<byte>)
    requires |rs| < n && (forall i :: 0 <= i < |rs| ==> WellFormed(rs[i])) && Decode(bad).Bad?
    ensures DecodeItems(n, items, EncodeAll(rs) + bad) == Bad(|EncodeAll(rs)| + Decode(bad).used)
    decreases |rs|
  {
    hide Decode, Encode;
    if rs == [] {
      assert EncodeAll(rs) + bad == bad;
    } else {
      var e, tail := Encode(rs[0]), EncodeAll(rs[1..]) + bad;
      Associative(e, EncodeAll(rs[1..]), bad);
      DecodeInvertsEncode(rs[0], tail);
      assert (e + tail)[|e|..] == tail;
      BadItem(n - 1, items + [ValueOf(rs[0])], rs[1..], bad);
    }
  }

  lemma {:induction false} DecodeItemsInvertsEncodeAll(rs: seq<Reply>, items: seq<Value>, rest: seq<byte>)
    requires forall i :: 0 <= i < |rs| ==> WellFormed(rs[i])
    ensures DecodeItems(|rs|, items, EncodeAll(rs) + rest)
            == Done(Array(items + ValuesOf(rs)), |EncodeAll(rs)|)
    decreases rs, 1
  {
    if rs == [] {
      assert items + ValuesOf(rs) == items;
    } else {
      var e := Encode(rs[0]);
      var tail := EncodeAll(rs[1..]) + rest;
      Associative(e, EncodeAll(rs[1..]), rest);
      DecodeInvertsEncode(rs[0], tail);
      assert (e + tail)[|e|..] == tail;
      DecodeItemsInvertsEncodeAll(rs[1..], items + [ValueOf(rs[0])], rest);
      Associative(items, [ValueOf(rs[0])], ValuesOf(rs[1..]));
    }
  }
}
