/**
 Byte strings and the decimal numbers written in them.

 Rust strings and buffers are byte sequences, so text is a `seq<Byte>` everywhere
 the source is Rust. The parsers follow `str::parse` of the Rust standard library:
 an optional sign, at least one digit, no overflow of the 64-bit target.
 */
module Text {
  import opened Options

  type Byte = b: int | 0 <= b < 256
  type Bytes = seq<Byte>

  const I64_MIN: int := -0x8000_0000_0000_0000
  const I64_MAX: int := 0x7FFF_FFFF_FFFF_FFFF
  const U64_MAX: int := 0xFFFF_FFFF_FFFF_FFFF

  const TAB: Byte := 9
  const LF: Byte := 10
  const CR: Byte := 13
  const SPACE: Byte := 32
  const PLUS: Byte := 43
  const DASH: Byte := 45
  const ZERO: Byte := 48

  const CRLF: Bytes := [CR, LF]

  predicate IsDigit(b: Byte) {
    ZERO <= b < ZERO + 10
  }

  predicate AllDigits(s: Bytes) {
    forall b | b in s :: IsDigit(b)
  }

  predicate Ascii(s: Bytes) {
    forall b | b in s :: b < 128
  }

  /** Decimal printing without leading zeros. */
  function Decimal(n: nat): (s: Bytes)
    ensures |s| > 0 && AllDigits(s)
  {
    if n < 10 then [ZERO + n] else Decimal(n / 10) + [ZERO + n % 10]
  }

  function DecimalInt(n: int): Bytes {
    if n < 0 then [DASH] + Decimal(-n) else Decimal(n)
  }

  function DigitsValue(s: Bytes): nat
    requires AllDigits(s)
  {
    if s == [] then 0
    else
      var last := |s| - 1;
      assert s[last] in s && AllDigits(s[..last]);
      DigitsValue(s[..last]) * 10 + (s[last] - ZERO)
  }

  /** The magnitude of an unsigned run of digits; empty and non-digit input is an error. */
  function ParseDigits(s: Bytes): Option<nat> {
    if s != [] && AllDigits(s) then Some(DigitsValue(s)) else None
  }

  /** `str::parse::<u64>`: a leading plus is accepted, a leading minus is not. */
  function ParseU64(s: Bytes): Option<nat> {
    match ParseDigits(if s != [] && s[0] == PLUS then s[1..] else s)
    case Some(v) => if v <= U64_MAX then Some(v) else None
    case None => None
  }

  /** `str::parse::<i64>`. */
  function ParseI64(s: Bytes): Option<int> {
    var negative := s != [] && s[0] == DASH;
    match ParseDigits(if s != [] && (s[0] == PLUS || s[0] == DASH) then s[1..] else s)
    case Some(v) =>
      var n := (if negative then -1 else 1) * v;
      if I64_MIN <= n <= I64_MAX then Some(n) else None
    case None => None
  }

  lemma {:induction false} DecimalValue(n: nat)
    ensures DigitsValue(Decimal(n)) == n
  {
    if n >= 10 {
      DecimalValue(n / 10);
      var s := Decimal(n);
      assert s[..|s| - 1] == Decimal(n / 10);
    }
  }

  lemma U64RoundTrip(n: nat)
    requires n <= U64_MAX
    ensures ParseU64(Decimal(n)) == Some(n)
  {
    DecimalValue(n);
    assert Decimal(n)[0] in Decimal(n);
  }

  lemma I64RoundTrip(n: int)
    requires I64_MIN <= n <= I64_MAX
    ensures ParseI64(DecimalInt(n)) == Some(n)
  {
    var m: nat := if n < 0 then -n else n;
    DecimalValue(m);
    assert Decimal(m)[0] in Decimal(m);
    if n < 0 {
      assert DecimalInt(n)[1..] == Decimal(m);
    }
  }

  // ----- what numbers look like, by the value of each place -----

  function TenTo(n: nat): nat {
    if n == 0 then 1 else 10 * TenTo(n - 1)
  }

  predicate Numeral(s: Bytes) {
    s != [] && forall i | 0 <= i < |s| :: 48 <= s[i] <= 57
  }

  /** Every digit times the power of ten of its place. */
  function Worth(s: Bytes): int {
    if s == [] then 0 else (s[0] - 48) * TenTo(|s| - 1) + Worth(s[1..])
  }

  lemma TimesTen(d: int, p: nat)
    ensures d * (10 * p) == 10 * (d * p)
  {
  }

  lemma {:induction false} WorthShift(s: Bytes, last: Byte)
    ensures Worth(s + [last]) == 10 * Worth(s) + (last - 48)
  {
    if s == [] {
      assert (s + [last])[1..] == [];
      assert TenTo(0) == 1;
    } else {
      assert (s + [last])[1..] == s[1..] + [last];
      WorthShift(s[1..], last);
      TimesTen(s[0] as int - 48, TenTo(|s| - 1));
    }
  }

  lemma {:induction false} WorthIsValue(s: Bytes)
    requires AllDigits(s)
    ensures Worth(s) == DigitsValue(s)
  {
    if s != [] {
      var front, last := s[..|s| - 1], s[|s| - 1];
      assert s == front + [last] && AllDigits(front);
      WorthIsValue(front);
      WorthShift(front, last);
    }
  }

  lemma NumeralIsDigits(s: Bytes)
    ensures Numeral(s) <==> s != [] && AllDigits(s)
  {
    forall i | 0 <= i < |s| ensures s[i] in s {
    }
    if Numeral(s) { assert forall b :: b in s ==> 48 <= b <= 57; }
  }

  /** A printed number: decimal digits worth the number, the first one zero for zero only. */
  lemma {:induction false} DecimalIs(n: nat)
    ensures Numeral(Decimal(n)) && Worth(Decimal(n)) == n
    ensures Decimal(n)[0] == 48 ==> n == 0 && Decimal(n) == [48]
  {
    NumeralIsDigits(Decimal(n));
    DecimalValue(n);
    WorthIsValue(Decimal(n));
    if n >= 10 { DecimalIs(n / 10); }
  }

  /** An unsigned 64-bit number as text: at least one digit, perhaps behind a plus sign, worth at most 2^64 - 1. */
  predicate U64Text(s: Bytes, n: nat) {
    var digits := if s != [] && s[0] == 43 then s[1..] else s;
    Numeral(digits) && Worth(digits) == n <= 18446744073709551615
  }

  lemma ParseU64Is(s: Bytes, n: nat)
    ensures ParseU64(s) == Some(n) <==> U64Text(s, n)
    ensures ParseU64(s) == None <==> forall m: nat :: !U64Text(s, m)
  {
    var digits := if s != [] && s[0] == 43 then s[1..] else s;
    NumeralIsDigits(digits);
    if AllDigits(digits) {
      WorthIsValue(digits);
      assert ParseU64(s).Some? ==> U64Text(s, ParseU64(s).value);
    }
  }

  /** A signed 64-bit number as text: at least one digit, perhaps behind a sign, from -2^63 to 2^63 - 1. */
  predicate I64Text(s: Bytes, n: int) {
    var signed := s != [] && (s[0] == 43 || s[0] == 45);
    var digits := if signed then s[1..] else s;
    && Numeral(digits) && n == (if signed && s[0] == 45 then -Worth(digits) else Worth(digits))
    && -9223372036854775808 <= n <= 9223372036854775807
  }

  lemma ParseI64Is(s: Bytes, n: int)
    ensures ParseI64(s) == Some(n) <==> I64Text(s, n)
    ensures ParseI64(s) == None <==> forall m :: !I64Text(s, m)
  {
    var digits := if s != [] && (s[0] == 43 || s[0] == 45) then s[1..] else s;
    NumeralIsDigits(digits);
    if AllDigits(digits) {
      WorthIsValue(digits);
      assert ParseI64(s).Some? ==> I64Text(s, ParseI64(s).value);
    }
  }
}
