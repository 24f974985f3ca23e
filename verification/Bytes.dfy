/** Bytes, decimal text and the C library's `strtol`, as the RESP code uses them. */
module Bytes {
  type byte = x: int | 0 <= x < 256

  const CR: byte := 13
  const LF: byte := 10
  const MINUS: byte := 45
  const CRLF: seq<byte> := [CR, LF]

  /** The range of `long int` on the platform of the project (32 bits). */
  const LONG_MAX := 0x7FFF_FFFF
  const LONG_MIN := -0x8000_0000

  predicate IsDigit(c: byte) { 48 <= c <= 57 }

  predicate AllDigits(s: seq<byte>) { forall i :: 0 <= i < |s| ==> IsDigit(s[i]) }

  /** Value of the leading digits of `s`, read left to right on top of `acc`. */
  function LeadingDigits(s: seq<byte>, acc: nat): nat
  {
    if s == [] || !IsDigit(s[0]) then acc else LeadingDigits(s[1..], acc * 10 + (s[0] - 48))
  }

  function Saturate(n: int): int
  {
    if n > LONG_MAX then LONG_MAX else if n < LONG_MIN then LONG_MIN else n
  }

  /** `strtol(s, 0, 10)` on text made of digits and '-': an optional sign, then the leading
      digits (none is 0), clamped to the range of `long`. */
  function Strtol(s: seq<byte>): int
  {
    if s != [] && s[0] == MINUS then Saturate(-(LeadingDigits(s[1..], 0) as int))
    else Saturate(LeadingDigits(s, 0))
  }

  /** Canonical decimal text of a natural number. */
  function Decimal(n: nat): (s: seq<byte>)
    ensures s != [] && AllDigits(s)
  {
    if n < 10 then [48 + n] else Decimal(n / 10) + [48 + n % 10]
  }

  function SignedDecimal(n: int): (s: seq<byte>)
    ensures s != []
    ensures forall i :: 0 <= i < |s| ==> IsDigit(s[i]) || s[i] == MINUS
  {
    if n < 0 then [MINUS] + Decimal(-n) else Decimal(n)
  }

  lemma {:induction false} LeadingDigitsAppend(a: seq<byte>, b: seq<byte>, acc: nat)
    requires AllDigits(a)
    ensures LeadingDigits(a + b, acc) == LeadingDigits(b, LeadingDigits(a, acc))
  {
    if a == [] {
      assert a + b == b;
    } else {
      assert (a + b)[1..] == a[1..] + b;
      LeadingDigitsAppend(a[1..], b, acc * 10 + (a[0] - 48));
    }
  }

  lemma {:induction false} DecimalValue(n: nat)
    ensures LeadingDigits(Decimal(n), 0) == n
  {
    if n >= 10 {
      var last: seq<byte> := [48 + n % 10];
      LeadingDigitsAppend(Decimal(n / 10), last, 0);
      DecimalValue(n / 10);
      assert LeadingDigits(last, n / 10) == LeadingDigits(last[1..], n / 10 * 10 + n % 10);
    }
  }

  /** `strtol` inverts decimal printing, exactly on the integers a `long` can hold. */
  lemma StrtolInvertsDecimal(n: int)
    ensures Strtol(SignedDecimal(n)) == n <==> LONG_MIN <= n <= LONG_MAX
  {
    if n < 0 {
      DecimalValue(-n);
      assert SignedDecimal(n)[1..] == Decimal(-n);
    } else {
      DecimalValue(n);
    }
  }

  /** No leading zero: the text begins with '0' for 0 only, which is one digit long. */
  lemma {:induction false} DecimalIsCanonical(n: nat)
    ensures Decimal(n)[0] == 48 <==> n == 0
    ensures |Decimal(n)| == 1 <==> n < 10
  {
    if n >= 10 { DecimalIsCanonical(n / 10); }
  }

  /** What `strtol` makes of a number and what follows it: it stops at the first character that is no
      digit, and a number outside the 32-bit range becomes the nearest one inside. */
  lemma StrtolStops(n: int, rest: seq<byte>)
    requires rest == [] || rest[0] < 48 || rest[0] > 57
    ensures Strtol(SignedDecimal(n) + rest)
            == if n > 2147483647 then 2147483647 else if n < -2147483648 then -2147483648 else n
  {
    if n < 0 {
      DecimalValue(-n);
      LeadingDigitsAppend(Decimal(-n), rest, 0);
      assert (SignedDecimal(n) + rest)[1..] == Decimal(-n) + rest;
    } else {
      DecimalValue(n);
      LeadingDigitsAppend(Decimal(n), rest, 0);
    }
  }

  /** Text that does not begin with a number is 0. */
  lemma StrtolOfNothing(rest: seq<byte>)
    requires rest == [] || rest[0] < 48 || rest[0] > 57
    ensures Strtol([45] + rest) == 0 && ((rest != [] ==> rest[0] != 45) ==> Strtol(rest) == 0)
  {
    assert ([45] + rest)[1..] == rest;
  }

  /** Some numbers, in ASCII. */
  lemma KnownNumbers()
    ensures SignedDecimal(0) == [48] && SignedDecimal(-1) == [45, 49] && SignedDecimal(2) == [50]
    ensures SignedDecimal(304) == [51, 48, 52]
  {
    assert Decimal(30) == Decimal(3) + [48] == [51, 48];
  }

  /** Flatten a list of byte strings. */
  function Concat(chunks: seq<seq<byte>>): seq<byte>
  {
    if chunks == [] then [] else chunks[0] + Concat(chunks[1..])
  }

  lemma {:induction false} ConcatAppend(a: seq<seq<byte>>, b: seq<seq<byte>>)
    ensures Concat(a + b) == Concat(a) + Concat(b)
  {
    if a == [] {
      assert a + b == b;
    } else {
      assert (a + b)[1..] == a[1..] + b;
      ConcatAppend(a[1..], b);
    }
  }

  lemma ConcatSnoc(a: seq<seq<byte>>, c: seq<byte>)
    ensures Concat(a + [c]) == Concat(a) + c
  {
    ConcatAppend(a, [c]);
    assert Concat([c]) == c + Concat([]);
  }
}
