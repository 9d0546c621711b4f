/**
 The text tests the frame parser applies to a line: UTF-8 well-formedness
 (`std::str::from_utf8`, table 3-7 of the Unicode Standard), the grammar of
 `str::parse::<f64>` and the white space of `str::split_whitespace`.
 */
module Utf8 {
  import opened Text

  predicate Continues(s: Bytes, i: nat) {
    i < |s| && 0x80 <= s[i] <= 0xBF
  }

  /** Length of the well-formed sequence at the front of `s`, 0 when there is none. */
  function SequenceLength(s: Bytes): (n: nat)
    ensures n <= |s|
  {
    if s == [] then 0
    else
      var b := s[0];
      if b <= 0x7F then 1
      else if 0xC2 <= b <= 0xDF then (if Continues(s, 1) then 2 else 0)
      else if 0xE0 <= b <= 0xEF then
        if Continues(s, 1) && Continues(s, 2) &&
           (b == 0xE0 ==> s[1] >= 0xA0) && (b == 0xED ==> s[1] <= 0x9F) then 3 else 0
      else if 0xF0 <= b <= 0xF4 then
        if Continues(s, 1) && Continues(s, 2) && Continues(s, 3) &&
           (b == 0xF0 ==> s[1] >= 0x90) && (b == 0xF4 ==> s[1] <= 0x8F) then 4 else 0
      else 0
  }

  predicate Valid(s: Bytes) {
    s == [] || (var n := SequenceLength(s); n > 0 && Valid(s[n..]))
  }

  lemma {:induction false} AsciiIsValid(s: Bytes)
    requires Ascii(s)
    ensures Valid(s)
  {
    if s != [] {
      assert s[0] in s && forall b | b in s[1..] :: b in s;
      AsciiIsValid(s[1..]);
    }
  }

  // ----- floating-point literals -----

  function Lower(b: Byte): Byte {
    if 65 <= b <= 90 then b + 32 else b
  }

  /** Length of the run of digits at the front of `s`. */
  function DigitRun(s: Bytes): (n: nat)
    ensures n <= |s|
  {
    if s != [] && IsDigit(s[0]) then 1 + DigitRun(s[1..]) else 0
  }

  function DropSign(s: Bytes): Bytes {
    if s != [] && (s[0] == PLUS || s[0] == DASH) then s[1..] else s
  }

  /** Empty, or an exponent mark, an optional sign and digits up to the end. */
  predicate IsExponent(s: Bytes) {
    s == [] ||
    (Lower(s[0]) == 101 && (var d := DropSign(s[1..]); d != [] && DigitRun(d) == |d|))
  }

  predicate IsDecimalLiteral(s: Bytes) {
    var whole := DigitRun(s);
    var rest := s[whole..];
    if rest != [] && rest[0] == 46 then
      var fraction := DigitRun(rest[1..]);
      whole + fraction > 0 && IsExponent(rest[1 + fraction..])
    else
      whole > 0 && IsExponent(rest)
  }

  /** Case-insensitive `inf`, `infinity` or `nan`. */
  predicate IsSpecial(s: Bytes) {
    var w := seq(|s|, i requires 0 <= i < |s| => Lower(s[i]));
    w == [105, 110, 102] || w == [105, 110, 102, 105, 110, 105, 116, 121] || w == [110, 97, 110]
  }

  /** What `str::parse::<f64>` accepts. */
  predicate IsFloat(s: Bytes) {
    var body := DropSign(s);
    IsSpecial(body) || IsDecimalLiteral(body)
  }

  lemma {:induction false} DigitRunAscii(s: Bytes)
    ensures forall i | 0 <= i < DigitRun(s) :: IsDigit(s[i])
  {
    if s != [] && IsDigit(s[0]) {
      DigitRunAscii(s[1..]);
      forall i | 0 <= i < DigitRun(s) ensures IsDigit(s[i]) {
        if i > 0 { assert s[i] == s[1..][i - 1]; }
      }
    }
  }

  predicate Plain(b: Byte) {
    b < 128 && b != CR
  }

  predicate AllPlain(s: Bytes) {
    forall b | b in s :: Plain(b)
  }

  lemma PlainAppend(a: Bytes, b: Bytes)
    requires AllPlain(a) && AllPlain(b)
    ensures AllPlain(a + b)
  {
  }

  lemma RunPlain(s: Bytes)
    ensures AllPlain(s[..DigitRun(s)])
  {
    DigitRunAscii(s);
    forall i | 0 <= i < DigitRun(s) ensures Plain(s[..DigitRun(s)][i]) {
      assert IsDigit(s[i]);
    }
  }

  lemma SignPlain(s: Bytes)
    requires AllPlain(DropSign(s))
    ensures AllPlain(s)
  {
    if DropSign(s) != s {
      PlainAppend([s[0]], s[1..]);
      assert s == [s[0]] + s[1..];
    }
  }

  lemma ExponentPlain(s: Bytes)
    requires IsExponent(s)
    ensures AllPlain(s)
  {
    if s != [] {
      var tail := s[1..];
      var d := DropSign(tail);
      RunPlain(d);
      assert d[..|d|] == d;
      SignPlain(tail);
      PlainAppend([s[0]], tail);
      assert s == [s[0]] + tail;
    }
  }

  lemma DecimalLiteralPlain(s: Bytes)
    requires IsDecimalLiteral(s)
    ensures AllPlain(s)
  {
    hide IsExponent, AllPlain, DigitRun;
    var n := DigitRun(s);
    var whole, rest := s[..n], s[n..];
    RunPlain(s);
    if rest != [] && rest[0] == 46 {
      PointPlain(rest);
    } else {
      ExponentPlain(rest);
    }
    PlainAppend(whole, rest);
    assert s == whole + rest;
  }

  lemma PointPlain(rest: Bytes)
    requires rest != [] && rest[0] == 46 && IsExponent(rest[1 + DigitRun(rest[1..])..])
    ensures AllPlain(rest)
  {
    hide IsExponent, DigitRun;
    var tail := rest[1..];
    var n := DigitRun(tail);
    var exponent := tail[n..];
    RunPlain(tail);
    assert rest[1 + n..] == exponent;
    ExponentPlain(exponent);
    PlainAppend(tail[..n], exponent);
    assert tail == tail[..n] + exponent;
    PlainAppend([rest[0]], tail);
    assert rest == [rest[0]] + tail;
  }

  lemma SpecialPlain(s: Bytes)
    requires IsSpecial(s)
    ensures AllPlain(s)
  {
    var w := seq(|s|, i requires 0 <= i < |s| => Lower(s[i]));
    forall i | 0 <= i < |s| ensures Plain(s[i]) {
      assert w[i] == Lower(s[i]);
    }
  }

  /** A float literal is a one-line ASCII text. */
  lemma FloatPlain(s: Bytes)
    requires IsFloat(s)
    ensures forall b | b in s :: Plain(b)
  {
    hide IsSpecial, IsDecimalLiteral;
    var body := DropSign(s);
    if IsSpecial(body) {
      SpecialPlain(body);
    } else {
      DecimalLiteralPlain(body);
    }
    SignPlain(s);
  }

  // ----- white space -----

  /** Byte length of the white-space character at the front of `s`, 0 when there is none. */
  function WhitespaceLength(s: Bytes): (n: nat)
    ensures n <= |s|
  {
    if s == [] then 0
    else if TAB <= s[0] <= CR || s[0] == SPACE then 1
    else if |s| >= 2 && s[0] == 0xC2 && (s[1] == 0x85 || s[1] == 0xA0) then 2
    else if |s| >= 3 &&
            (s[..3] == [0xE1, 0x9A, 0x80] || s[..3] == [0xE2, 0x81, 0x9F] || s[..3] == [0xE3, 0x80, 0x80] ||
             (s[0] == 0xE2 && s[1] == 0x80 &&
              (0x80 <= s[2] <= 0x8A || s[2] == 0xA8 || s[2] == 0xA9 || s[2] == 0xAF))) then 3
    else 0
  }

  /** `str::split_whitespace`: the maximal runs without white space; `word` is the run being read. */
  function Words(s: Bytes, word: Bytes): (ws: seq<Bytes>)
    ensures forall w | w in ws :: w != []
    decreases |s|
  {
    var n := WhitespaceLength(s);
    if s == [] then (if word == [] then [] else [word])
    else if n == 0 then Words(s[1..], word + [s[0]])
    else (if word == [] then [] else [word]) + Words(s[n..], [])
  }
}
