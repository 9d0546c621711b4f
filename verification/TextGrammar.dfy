/**
 The text tests of the frame parser, said as grammars: a UTF-8 text is a sequence of encoded
 Unicode scalar values (RFC 3629, section 3), a float is a sign, digits, a point, digits and
 an exponent, and the words of a line are what stands between its white space.
 */
module TextGrammar {
  import opened Text
  import Utf8

  // ----- UTF-8 -----

  /** A code point other than a surrogate. */
  predicate ScalarValue(c: nat) {
    c <= 0x10FFFF && !(0xD800 <= c <= 0xDFFF)
  }

  function EncodeScalar(c: nat): (s: Bytes)
    requires ScalarValue(c)
    ensures s != []
  {
    if c < 0x80 then [c]
    else if c < 0x800 then [0xC0 + c / 64, 0x80 + c % 64]
    else if c < 0x10000 then [0xE0 + c / 4096, 0x80 + c / 64 % 64, 0x80 + c % 64]
    else [0xF0 + c / 262144, 0x80 + c / 4096 % 64, 0x80 + c / 64 % 64, 0x80 + c % 64]
  }

  predicate ScalarValues(cs: seq<nat>) {
    forall i | 0 <= i < |cs| :: ScalarValue(cs[i])
  }

  function EncodeScalars(cs: seq<nat>): Bytes
    requires ScalarValues(cs)
  {
    if cs == [] then [] else EncodeScalar(cs[0]) + EncodeScalars(cs[1..])
  }

  lemma ThreeParts(c: nat)
    requires 0x800 <= c < 0x10000 && ScalarValue(c)
    ensures c / 4096 < 16 && (c / 4096 == 0 ==> c / 64 % 64 >= 32) && (c / 4096 == 13 ==> c / 64 % 64 < 32)
  {
    assert c / 4096 == c / 64 / 64;
  }

  lemma FourParts(c: nat)
    requires 0x10000 <= c <= 0x10FFFF
    ensures c / 262144 <= 4 && (c / 262144 == 0 ==> c / 4096 % 64 >= 16) && (c / 262144 == 4 ==> c / 4096 % 64 < 16)
  {
    assert c / 262144 == c / 4096 / 64;
  }

  lemma Front(e: Bytes, t: Bytes, i: nat)
    requires i < |e|
    ensures (e + t)[i] == e[i]
  {
  }

  lemma EncodedLength(c: nat, t: Bytes)
    requires ScalarValue(c)
    ensures Utf8.SequenceLength(EncodeScalar(c) + t) == |EncodeScalar(c)|
  {
    var e := EncodeScalar(c);
    Front(e, t, 0);
    if c >= 0x80 { Front(e, t, 1); }
    if c >= 0x800 { Front(e, t, 2); }
    if c >= 0x10000 {
      Front(e, t, 3);
      FourParts(c);
    } else if c >= 0x800 {
      ThreeParts(c);
    }
  }

  lemma SixBits(a: nat, b: nat)
    requires b < 64
    ensures (a * 64 + b) / 64 == a && (a * 64 + b) % 64 == b
  {
  }

  lemma TwoBytes(a: int, b: int) returns (c: nat)
    requires 0xC2 <= a <= 0xDF && 0x80 <= b <= 0xBF
    ensures 0x80 <= c < 0x800 && 0xC0 + c / 64 == a && 0x80 + c % 64 == b
  {
    c := (a - 0xC0) * 64 + (b - 0x80);
    SixBits(a - 0xC0, b - 0x80);
  }

  lemma ThreeBytes(a: int, b: int, d: int) returns (c: nat)
    requires 0xE0 <= a <= 0xEF && 0x80 <= b <= 0xBF && 0x80 <= d <= 0xBF
    requires (a == 0xE0 ==> b >= 0xA0) && (a == 0xED ==> b <= 0x9F)
    ensures 0x800 <= c < 0x10000 && ScalarValue(c)
    ensures 0xE0 + c / 4096 == a && 0x80 + c / 64 % 64 == b && 0x80 + c % 64 == d
  {
    var high := (a - 0xE0) * 64 + (b - 0x80);
    c := high * 64 + (d - 0x80);
    SixBits(a - 0xE0, b - 0x80);
    SixBits(high, d - 0x80);
    assert c / 4096 == c / 64 / 64;
  }

  lemma FourBytes(a: int, b: int, d: int, e: int) returns (c: nat)
    requires 0xF0 <= a <= 0xF4 && 0x80 <= b <= 0xBF && 0x80 <= d <= 0xBF && 0x80 <= e <= 0xBF
    requires (a == 0xF0 ==> b >= 0x90) && (a == 0xF4 ==> b <= 0x8F)
    ensures 0x10000 <= c <= 0x10FFFF
    ensures 0xF0 + c / 262144 == a && 0x80 + c / 4096 % 64 == b && 0x80 + c / 64 % 64 == d && 0x80 + c % 64 == e
  {
    var top := (a - 0xF0) * 64 + (b - 0x80);
    var high := top * 64 + (d - 0x80);
    c := high * 64 + (e - 0x80);
    SixBits(a - 0xF0, b - 0x80);
    SixBits(top, d - 0x80);
    SixBits(high, e - 0x80);
    assert c / 4096 == c / 64 / 64 && c / 262144 == c / 64 / 64 / 64;
  }

  lemma SequenceIsScalar(s: Bytes) returns (c: nat)
    requires Utf8.SequenceLength(s) > 0
    ensures ScalarValue(c) && s[..Utf8.SequenceLength(s)] == EncodeScalar(c)
  {
    var n := Utf8.SequenceLength(s);
    if n == 1 {
      c := s[0];
      assert s[..1] == [s[0]];
    } else if n == 2 {
      c := TwoBytes(s[0], s[1]);
      assert s[..2] == [s[0], s[1]];
    } else if n == 3 {
      c := ThreeBytes(s[0], s[1], s[2]);
      assert s[..3] == [s[0], s[1], s[2]];
    } else {
      c := FourBytes(s[0], s[1], s[2], s[3]);
      assert s[..4] == [s[0], s[1], s[2], s[3]];
    }
  }

  lemma {:induction false} EncodedIsValid(cs: seq<nat>)
    requires ScalarValues(cs)
    ensures Utf8.Valid(EncodeScalars(cs))
  {
    if cs != [] {
      var head, tail := EncodeScalar(cs[0]), EncodeScalars(cs[1..]);
      EncodedLength(cs[0], tail);
      EncodedIsValid(cs[1..]);
      assert (head + tail)[|head|..] == tail;
    }
  }

  lemma {:induction false} ValidIsEncoded(s: Bytes) returns (cs: seq<nat>)
    requires Utf8.Valid(s)
    ensures ScalarValues(cs) && EncodeScalars(cs) == s
    decreases |s|
  {
    hide Utf8.SequenceLength, ScalarValue, EncodeScalar;
    if s == [] {
      cs := [];
    } else {
      var n := Utf8.SequenceLength(s);
      var head, tail := s[..n], s[n..];
      var c := SequenceIsScalar(s);
      var rest := ValidIsEncoded(tail);
      cs := [c] + rest;
      assert cs[1..] == rest && s == head + tail;
    }
  }

  ghost predicate Encodes(s: Bytes, cs: seq<nat>) {
    ScalarValues(cs) && EncodeScalars(cs) == s
  }

  /** The well-formedness test accepts exactly the encodings of sequences of scalar values. */
  lemma ValidIs(s: Bytes)
    ensures Utf8.Valid(s) <==> exists cs :: Encodes(s, cs)
  {
    if Utf8.Valid(s) {
      var cs := ValidIsEncoded(s);
      assert Encodes(s, cs);
    }
    if cs :| Encodes(s, cs) { EncodedIsValid(cs); }
  }

  // ----- floats -----

  predicate Digits(s: Bytes) {
    forall i | 0 <= i < |s| :: 48 <= s[i] <= 57
  }

  predicate Sign(s: Bytes) {
    s == [] || s == [43] || s == [45]
  }

  /** Nothing, or an `e` of either case, an optional sign and digits. */
  ghost predicate Exponent(s: Bytes) {
    s == [] || exists sign, digits :: ExponentOf(s, sign, digits)
  }

  predicate ExponentOf(s: Bytes, sign: Bytes, digits: Bytes) {
    (s == [69] + sign + digits || s == [101] + sign + digits) && Sign(sign) && digits != [] && Digits(digits)
  }

  /** Digits with at most one point among or beside them, at least one digit, and an exponent. */
  predicate NumberOf(s: Bytes, whole: Bytes, point: Bytes, fraction: Bytes, exponent: Bytes) {
    && s == whole + point + fraction + exponent && Digits(whole) && Digits(fraction)
    && (point == [46] || (point == [] && fraction == [])) && |whole| + |fraction| > 0
  }

  ghost predicate Number(s: Bytes) {
    exists whole, point, fraction, exponent :: NumberOf(s, whole, point, fraction, exponent) && Exponent(exponent)
  }

  /** One of these letters, in either case, at every place. */
  predicate Spelled(s: Bytes, upper: Bytes) {
    |s| == |upper| && forall i | 0 <= i < |s| :: s[i] == upper[i] || s[i] as int == upper[i] as int + 32
  }

  /** "INF", "INFINITY" or "NAN" in any case. */
  predicate SpecialNumber(s: Bytes) {
    Spelled(s, [73, 78, 70]) || Spelled(s, [73, 78, 70, 73, 78, 73, 84, 89]) || Spelled(s, [78, 65, 78])
  }

  ghost predicate SignedFloat(s: Bytes, sign: Bytes, body: Bytes) {
    s == sign + body && Sign(sign) && (SpecialNumber(body) || Number(body))
  }

  lemma {:induction false} DigitRunIs(digits: Bytes, rest: Bytes)
    requires Digits(digits) && (rest == [] || !(48 <= rest[0] <= 57))
    ensures Utf8.DigitRun(digits + rest) == |digits|
    decreases |digits|
  {
    if digits == [] {
      assert digits + rest == rest;
    } else {
      assert (digits + rest)[1..] == digits[1..] + rest;
      DigitRunIs(digits[1..], rest);
    }
  }

  lemma {:induction false} DigitRunSplits(s: Bytes)
    ensures var n := Utf8.DigitRun(s); Digits(s[..n]) && (n < |s| ==> !(48 <= s[n] <= 57))
    decreases |s|
  {
    if s != [] && IsDigit(s[0]) {
      var n := Utf8.DigitRun(s[1..]);
      DigitRunSplits(s[1..]);
      assert s[..n + 1] == [s[0]] + s[1..][..n];
    }
  }

  lemma Behind(a: Bytes, b: Bytes)
    ensures (a + b)[..|a|] == a && (a + b)[|a|..] == b
  {
  }

  lemma ExponentRead(s: Bytes, sign: Bytes, digits: Bytes)
    requires ExponentOf(s, sign, digits)
    ensures Utf8.IsExponent(s)
  {
    hide Utf8.DigitRun;
    var tail := sign + digits;
    var rest := s[1..];
    assert rest == tail;
    Unsigned(sign, digits, tail);
    DigitRunIs(digits, []);
    assert digits + [] == digits;
  }

  lemma Unsigned(sign: Bytes, digits: Bytes, tail: Bytes)
    requires tail == sign + digits && Sign(sign) && digits != [] && Digits(digits)
    ensures Utf8.DropSign(tail) == digits
  {
    Behind(sign, digits);
  }

  lemma ExponentIs(s: Bytes)
    ensures Utf8.IsExponent(s) <==> Exponent(s)
  {
    hide ExponentOf, Utf8.DigitRun, Utf8.DropSign;
    if s != [] {
      if Utf8.IsExponent(s) { ExponentParts(s); }
      if sign, digits :| ExponentOf(s, sign, digits) { ExponentRead(s, sign, digits); }
    }
  }

  lemma SignSplits(tail: Bytes, d: Bytes) returns (sign: Bytes)
    requires d == Utf8.DropSign(tail)
    ensures tail == sign + d && Sign(sign)
  {
    if d == tail {
      sign := [];
      assert tail == sign + d;
    } else {
      sign := [tail[0]];
    }
  }

  lemma AllRun(d: Bytes)
    requires Utf8.DigitRun(d) == |d|
    ensures Digits(d)
  {
    DigitRunSplits(d);
    assert d[..|d|] == d;
  }

  lemma ExponentParts(s: Bytes)
    requires s != [] && Utf8.IsExponent(s)
    ensures Exponent(s)
  {
    hide Utf8.DropSign, Utf8.DigitRun, Digits, Sign;
    var tail := s[1..];
    var d := Utf8.DropSign(tail);
    var sign := SignSplits(tail, d);
    AllRun(d);
    assert s == [s[0]] + tail == [s[0]] + sign + d;
    assert ExponentOf(s, sign, d);
  }

  /** A number is read digit run by digit run. */
  lemma NumberIsLiteral(s: Bytes, whole: Bytes, point: Bytes, fraction: Bytes, exponent: Bytes)
    requires NumberOf(s, whole, point, fraction, exponent) && Exponent(exponent)
    ensures Utf8.IsDecimalLiteral(s)
  {
    hide Exponent, Utf8.IsExponent;
    ExponentIs(exponent);
    ExponentFront(exponent);
    var tail := fraction + exponent;
    var rest := point + tail;
    assert s == whole + rest;
    assert point == [] ==> rest == exponent;
    DigitRunIs(whole, rest);
    Behind(whole, rest);
    if point == [46] { PointIsLiteral(s, |whole|, rest, fraction, exponent, tail); }
  }

  lemma PointIsLiteral(s: Bytes, w: nat, rest: Bytes, fraction: Bytes, exponent: Bytes, tail: Bytes)
    requires w == Utf8.DigitRun(s) && rest == s[w..] == [46] + tail && tail == fraction + exponent
    requires Digits(fraction) && w + |fraction| > 0 && Utf8.IsExponent(exponent)
    requires exponent == [] || !(48 <= exponent[0] <= 57)
    ensures Utf8.IsDecimalLiteral(s)
  {
    hide Utf8.IsExponent;
    Behind([46], tail);
    DigitRunIs(fraction, exponent);
    Behind(fraction, exponent);
    assert rest[1 + |fraction|..] == tail[|fraction|..];
  }

  lemma ExponentFront(s: Bytes)
    requires Exponent(s)
    ensures s == [] || s[0] == 69 || s[0] == 101
  {
  }

  lemma PointIsNumber(s: Bytes, w: nat, rest: Bytes, tail: Bytes)
    requires w == Utf8.DigitRun(s) && rest == s[w..] && rest == [46] + tail
    requires var f := Utf8.DigitRun(tail); w + f > 0 && Utf8.IsExponent(tail[f..])
    ensures Number(s)
  {
    hide Exponent, Utf8.IsExponent, Utf8.DigitRun;
    var f := Utf8.DigitRun(tail);
    var whole, fraction, exponent := s[..w], tail[..f], tail[f..];
    DigitRunSplits(s);
    DigitRunSplits(tail);
    ExponentIs(exponent);
    assert s == whole + ([46] + (fraction + exponent));
    assert s == whole + [46] + fraction + exponent;
    assert NumberOf(s, whole, [46], fraction, exponent);
  }

  lemma LiteralIsNumber(s: Bytes)
    requires Utf8.IsDecimalLiteral(s)
    ensures Number(s)
  {
    hide Exponent, Number, Utf8.IsExponent, Utf8.DigitRun;
    var w := Utf8.DigitRun(s);
    var whole, rest := s[..w], s[w..];
    if rest != [] && rest[0] == 46 {
      var tail := rest[1..];
      assert rest == [46] + tail;
      assert rest[1 + Utf8.DigitRun(tail)..] == tail[Utf8.DigitRun(tail)..];
      PointIsNumber(s, w, rest, tail);
    } else {
      WholeIsNumber(s, w, whole, rest);
    }
  }

  lemma WholeIsNumber(s: Bytes, w: nat, whole: Bytes, rest: Bytes)
    requires w == Utf8.DigitRun(s) && whole == s[..w] && rest == s[w..] && w > 0 && Utf8.IsExponent(rest)
    ensures Number(s)
  {
    hide Exponent, Utf8.IsExponent, Utf8.DigitRun;
    DigitRunSplits(s);
    ExponentIs(rest);
    assert s == whole + [] + [] + rest;
    assert NumberOf(s, whole, [], [], rest);
  }

  lemma LiteralIs(s: Bytes)
    ensures Utf8.IsDecimalLiteral(s) <==> Number(s)
  {
    if Utf8.IsDecimalLiteral(s) { LiteralIsNumber(s); }
    if whole, point, fraction, exponent :| NumberOf(s, whole, point, fraction, exponent) && Exponent(exponent) {
      NumberIsLiteral(s, whole, point, fraction, exponent);
    }
  }

  lemma SpelledIs(s: Bytes, upper: Bytes, lower: Bytes)
    requires |lower| == |upper| && forall i | 0 <= i < |upper| :: 65 <= upper[i] <= 90 && lower[i] as int == upper[i] as int + 32
    ensures Spelled(s, upper) <==> seq(|s|, i requires 0 <= i < |s| => Utf8.Lower(s[i])) == lower
  {
    var w := seq(|s|, i requires 0 <= i < |s| => Utf8.Lower(s[i]));
    if |s| == |upper| {
      forall i | 0 <= i < |s| ensures (s[i] == upper[i] || s[i] as int == upper[i] as int + 32) <==> w[i] == lower[i] {
      }
      if Spelled(s, upper) { assert w == lower; }
    }
  }

  lemma SpecialIs(s: Bytes)
    ensures Utf8.IsSpecial(s) <==> SpecialNumber(s)
  {
    SpelledIs(s, [73, 78, 70], [105, 110, 102]);
    SpelledIs(s, [73, 78, 70, 73, 78, 73, 84, 89], [105, 110, 102, 105, 110, 105, 116, 121]);
    SpelledIs(s, [78, 65, 78], [110, 97, 110]);
  }

  /** The test for a double accepts exactly an optional sign before a number or a special name. */
  lemma FloatIs(s: Bytes)
    ensures Utf8.IsFloat(s) <==> exists sign, body :: SignedFloat(s, sign, body)
  {
    var d := Utf8.DropSign(s);
    SpecialIs(d);
    LiteralIs(d);
    if Utf8.IsFloat(s) {
      var sign := s[..|s| - |d|];
      assert SignedFloat(s, sign, d);
    }
    if sign, body :| SignedFloat(s, sign, body) {
      UnsignedBody(body);
      assert d == body;
    }
  }

  lemma UnsignedBody(body: Bytes)
    requires SpecialNumber(body) || Number(body)
    ensures body != [] && body[0] != 43 && body[0] != 45
  {
    if !SpecialNumber(body) {
      var whole, point, fraction, exponent :| NumberOf(body, whole, point, fraction, exponent) && Exponent(exponent);
    }
  }

  // ----- words -----

  /** The characters with the Unicode property White_Space, in UTF-8. */
  predicate White(c: Bytes) {
    || (|c| == 1 && (9 <= c[0] <= 13 || c[0] == 32))
    || c == [0xC2, 0x85] || c == [0xC2, 0xA0] || c == [0xE1, 0x9A, 0x80]
    || (|c| == 3 && c[0] == 0xE2 && c[1] == 0x80 && (0x80 <= c[2] <= 0x8A || 0xA8 <= c[2] <= 0xA9 || c[2] == 0xAF))
    || c == [0xE2, 0x81, 0x9F] || c == [0xE3, 0x80, 0x80]
  }

  /** Some white space starts the text. */
  ghost predicate StartsWhite(s: Bytes) {
    exists n: nat :: n <= |s| && White(s[..n])
  }

  ghost predicate Blank(s: Bytes)
    decreases |s|, 1
  {
    s == [] || exists n: nat :: BlankAt(s, n)
  }

  ghost predicate BlankAt(s: Bytes, n: nat)
    decreases |s|, 0
  {
    0 < n <= |s| && White(s[..n]) && Blank(s[n..])
  }

  /** A text with no white space in it. */
  ghost predicate Word(w: Bytes) {
    w != [] && forall i | 0 <= i < |w| :: !StartsWhite(w[i..])
  }

  /** The words of a text in order, with blanks around them and white space behind each but the last. */
  ghost predicate Splits(s: Bytes, words: seq<Bytes>)
    decreases |words|
  {
    if words == [] then Blank(s) else exists a: nat, b: nat :: SplitsAt(s, words, a, b)
  }

  ghost predicate SplitsAt(s: Bytes, words: seq<Bytes>, a: nat, b: nat)
    requires words != []
    decreases |words|, 0
  {
    && a <= b <= |s| && Blank(s[..a]) && s[a..b] == words[0] && Word(words[0])
    && (b == |s| || StartsWhite(s[b..])) && Splits(s[b..], words[1..])
  }

  lemma WhiteFront(s: Bytes, n: nat)
    requires n <= |s| && White(s[..n])
    ensures Utf8.WhitespaceLength(s) == n > 0
  {
    assert forall i | 0 <= i < n :: s[..n][i] == s[i];
    if n == 3 { assert s[..3] == [s[0], s[1], s[2]]; }
  }

  lemma LengthIsWhite(s: Bytes)
    ensures Utf8.WhitespaceLength(s) > 0 <==> StartsWhite(s)
    ensures Utf8.WhitespaceLength(s) > 0 ==> White(s[..Utf8.WhitespaceLength(s)])
  {
    var n := Utf8.WhitespaceLength(s);
    if n == 1 { assert s[..1] == [s[0]]; }
    if n == 2 { assert s[..2] == [s[0], s[1]]; }
    if n == 3 { assert s[..3] == [s[0], s[1], s[2]]; }
    if StartsWhite(s) {
      var m: nat :| m <= |s| && White(s[..m]);
      WhiteFront(s, m);
    }
  }

  lemma WhiteLead(t: Bytes)
    requires StartsWhite(t)
    ensures t != [] && (9 <= t[0] <= 13 || t[0] == 32 || t[0] == 0xC2 || t[0] == 0xE1 || t[0] == 0xE2 || t[0] == 0xE3)
  {
    var n: nat :| n <= |t| && White(t[..n]);
    assert t[..n][0] == t[0];
  }

  /** White space does not arise where a text without it meets one that starts with it. */
  lemma NoCrossing(u: Bytes, t: Bytes)
    requires u != [] && !StartsWhite(u) && (t == [] || StartsWhite(t))
    ensures Utf8.WhitespaceLength(u + t) == 0
  {
    hide Utf8.WhitespaceLength;
    var all := u + t;
    LengthIsWhite(all);
    if t != [] { WhiteLead(t); }
    forall n: nat | n <= |all| ensures !White(all[..n]) {
      if n <= |u| {
        assert all[..n] == u[..n];
      } else {
        assert all[..n][|u|] == t[0];
      }
    }
  }

  lemma {:induction false} BlankSkipped(front: Bytes, t: Bytes)
    requires Blank(front)
    ensures Utf8.Words(front + t, []) == Utf8.Words(t, [])
    decreases |front|
  {
    hide White, Utf8.WhitespaceLength;
    if front == [] {
      assert front + t == t;
    } else {
      var n: nat :| BlankAt(front, n);
      var all, rest := front + t, front[n..];
      assert all[..n] == front[..n] && all[n..] == rest + t;
      WhiteFront(all, n);
      BlankSkipped(rest, t);
      assert [] + Utf8.Words(rest + t, []) == Utf8.Words(rest + t, []);
    }
  }

  /** No white space starts at any place of `w` when `t` follows. */
  ghost predicate NoneWithin(w: Bytes, t: Bytes) {
    forall i | 0 <= i < |w| :: Utf8.WhitespaceLength(w[i..] + t) == 0
  }

  lemma {:induction false} WordRead(w: Bytes, t: Bytes, acc: Bytes)
    requires NoneWithin(w, t)
    ensures Utf8.Words(w + t, acc) == Utf8.Words(t, acc + w)
    decreases |w|
  {
    hide Utf8.WhitespaceLength;
    if w == [] {
      assert w + t == t && acc + w == acc;
    } else {
      var rest := w[1..];
      assert w[0..] == w;
      forall i | 0 <= i < |rest| ensures Utf8.WhitespaceLength(rest[i..] + t) == 0 { assert rest[i..] == w[i + 1..]; }
      WordRead(rest, t, acc + [w[0]]);
      assert (w + t)[1..] == rest + t && (acc + [w[0]]) + rest == acc + w;
    }
  }

  lemma WordEnds(t: Bytes, word: Bytes)
    requires word != [] && (t == [] || StartsWhite(t))
    ensures Utf8.Words(t, word) == [word] + Utf8.Words(t, [])
  {
    LengthIsWhite(t);
    if t == [] { assert [word] + [] == [word]; } else {
      assert [] + Utf8.Words(t[Utf8.WhitespaceLength(t)..], []) == Utf8.Words(t[Utf8.WhitespaceLength(t)..], []);
    }
  }

  lemma OneWord(w: Bytes, t: Bytes)
    requires w != [] && NoneWithin(w, t) && (t == [] || StartsWhite(t))
    ensures Utf8.Words(w + t, []) == [w] + Utf8.Words(t, [])
  {
    hide NoneWithin, StartsWhite;
    WordRead(w, t, []);
    assert [] + w == w;
    WordEnds(t, w);
  }

  lemma WordAlone(w: Bytes, t: Bytes)
    requires Word(w) && (t == [] || StartsWhite(t))
    ensures NoneWithin(w, t)
  {
    hide StartsWhite, Utf8.WhitespaceLength;
    forall i | 0 <= i < |w| ensures Utf8.WhitespaceLength(w[i..] + t) == 0 { NoCrossing(w[i..], t); }
  }

  lemma {:induction false} SplitIsWords(s: Bytes, words: seq<Bytes>)
    requires Splits(s, words)
    ensures Utf8.Words(s, []) == words
    decreases |words|
  {
    hide Blank, Word, StartsWhite, Utf8.Words, NoneWithin;
    if words == [] {
      BlankSkipped(s, []);
      assert s + [] == s;
      NoWords();
    } else {
      var a: nat, b: nat :| SplitsAt(s, words, a, b);
      var front, w, t := s[..a], words[0], s[b..];
      assert s == front + (w + t);
      BlankSkipped(front, w + t);
      WordAlone(w, t);
      WordIsNot(w);
      OneWord(w, t);
      SplitIsWords(t, words[1..]);
    }
  }

  lemma WordIsNot(w: Bytes)
    requires Word(w)
    ensures w != []
  {
  }

  lemma NoWords()
    ensures Utf8.Words([], []) == []
  {
  }

  /** Where the word at the front of a text ends. */
  lemma {:induction false} FindEnd(s: Bytes) returns (w: Bytes, t: Bytes)
    ensures s == w + t && NoneWithin(w, t) && (t == [] || StartsWhite(t))
    ensures s != [] && Utf8.WhitespaceLength(s) == 0 ==> w != []
    decreases |s|
  {
    hide Utf8.WhitespaceLength, StartsWhite;
    LengthIsWhite(s);
    if s == [] || Utf8.WhitespaceLength(s) > 0 {
      w, t := [], s;
      assert s == w + t;
    } else {
      var rest;
      rest, t := FindEnd(s[1..]);
      w := [s[0]] + rest;
      assert s == w + t;
      forall i | 0 <= i < |w| ensures Utf8.WhitespaceLength(w[i..] + t) == 0 {
        if i > 0 { assert w[i..] == rest[i - 1..]; } else { assert w[0..] == w; }
      }
    }
  }

  lemma NoneIsWord(w: Bytes, t: Bytes)
    requires w != [] && NoneWithin(w, t)
    ensures Word(w)
  {
    hide White, Utf8.WhitespaceLength;
    forall i | 0 <= i < |w| ensures !StartsWhite(w[i..]) {
      var u, all := w[i..], w[i..] + t;
      LengthIsWhite(all);
      forall n: nat | n <= |u| ensures !White(u[..n]) { assert all[..n] == u[..n]; }
    }
  }

  lemma BlankBefore(front: Bytes, t: Bytes, words: seq<Bytes>)
    requires White(front) && front != [] && Splits(t, words)
    ensures Splits(front + t, words)
  {
    hide White, Word, StartsWhite;
    var s, n := front + t, |front|;
    if words == [] {
      BlankMore(front, t);
    } else {
      var a: nat, b: nat :| SplitsAt(t, words, a, b);
      BlankMore(front, t[..a]);
      assert s[..n + a] == front + t[..a];
      assert s[n + a..n + b] == t[a..b] && s[n + b..] == t[b..];
      assert SplitsAt(s, words, n + a, n + b);
    }
  }

  lemma BlankMore(front: Bytes, blank: Bytes)
    requires White(front) && front != [] && Blank(blank)
    ensures Blank(front + blank)
  {
    Behind(front, blank);
    assert BlankAt(front + blank, |front|);
  }

  lemma WordBefore(w: Bytes, t: Bytes, words: seq<Bytes>)
    requires Word(w) && (t == [] || StartsWhite(t)) && Splits(t, words)
    ensures Splits(w + t, [w] + words)
  {
    hide Word, StartsWhite;
    var s, all := w + t, [w] + words;
    Behind(w, t);
    assert s[..0] == [] && s[0..|w|] == w && all[1..] == words;
    assert SplitsAt(s, all, 0, |w|);
  }

  lemma {:induction false} WordsSplit(s: Bytes)
    ensures Splits(s, Utf8.Words(s, []))
    decreases |s|
  {
    hide Splits, StartsWhite, White, NoneWithin, Word, Utf8.WhitespaceLength;
    var n := Utf8.WhitespaceLength(s);
    if s == [] {
      NothingSplits();
    } else if n > 0 {
      LengthIsWhite(s);
      var front, t := s[..n], s[n..];
      WordsSplit(t);
      BlankBefore(front, t, Utf8.Words(t, []));
      assert front + t == s && [] + Utf8.Words(t, []) == Utf8.Words(t, []);
    } else {
      var w, t := FindEnd(s);
      OneWord(w, t);
      WordsSplit(t);
      NoneIsWord(w, t);
      WordBefore(w, t, Utf8.Words(t, []));
    }
  }

  lemma NothingSplits()
    ensures Splits([], [])
  {
  }

  /** The words read are the words of the text: all of them, in order, each the whole run between white space. */
  lemma WordsAre(s: Bytes, words: seq<Bytes>)
    ensures Utf8.Words(s, []) == words <==> Splits(s, words)
  {
    WordsSplit(s);
    if Splits(s, words) { SplitIsWords(s, words); }
  }
}
