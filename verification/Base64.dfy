/**
 Base64 with the standard alphabet and padding, section 4 of RFC 4648, as the L1 tier
 stores binary hash fields. Bytes and the 24-bit groups are machine words, so shifts and
 masks are the source's.
 */
module Base64 {
  type Byte = bv8
  type Bytes = seq<Byte>

  const PAD: Byte := 61

  datatype Decoded = Ok(bytes: Bytes) | InvalidLength | InvalidByte

  // ----- the alphabet -----

  /** Entry `v` of the alphabet table A-Z a-z 0-9 + /. */
  function Letter(v: Byte): (c: Byte)
    requires v < 64
    ensures Value(c) == v && IsLetter(c) && c != PAD
  {
    if v < 26 then 65 + v
    else if v < 52 then 97 + (v - 26)
    else if v < 62 then 48 + (v - 52)
    else if v == 62 then 43
    else 47
  }

  predicate IsLetter(c: Byte) {
    65 <= c <= 90 || 97 <= c <= 122 || 48 <= c <= 57 || c == 43 || c == 47
  }

  /** The value of a letter; other bytes are rejected by `IsLetter` before it is used. */
  function Value(c: Byte): (v: Byte)
    ensures IsLetter(c) ==> v < 64
  {
    if 65 <= c <= 90 then c - 65
    else if 97 <= c <= 122 then c - 97 + 26
    else if 48 <= c <= 57 then c - 48 + 52
    else if c == 43 then 62
    else 63
  }

  lemma ValueInjective(c: Byte)
    requires IsLetter(c)
    ensures Letter(Value(c)) == c
  {
  }

  /** The 64 letters in the order of table 1 of RFC 4648. */
  lemma AlphabetIs()
    ensures [Letter(0), Letter(1), Letter(2), Letter(3), Letter(4), Letter(5), Letter(6), Letter(7), Letter(8), Letter(9), Letter(10), Letter(11), Letter(12),
             Letter(13), Letter(14), Letter(15), Letter(16), Letter(17), Letter(18), Letter(19), Letter(20), Letter(21), Letter(22), Letter(23), Letter(24), Letter(25),
             Letter(26), Letter(27), Letter(28), Letter(29), Letter(30), Letter(31), Letter(32), Letter(33), Letter(34), Letter(35), Letter(36), Letter(37), Letter(38),
             Letter(39), Letter(40), Letter(41), Letter(42), Letter(43), Letter(44), Letter(45), Letter(46), Letter(47), Letter(48), Letter(49), Letter(50), Letter(51),
             Letter(52), Letter(53), Letter(54), Letter(55), Letter(56), Letter(57), Letter(58), Letter(59), Letter(60), Letter(61), Letter(62), Letter(63)] ==
            [65, 66, 67, 68, 69, 70, 71, 72, 73, 74, 75, 76, 77,
             78, 79, 80, 81, 82, 83, 84, 85, 86, 87, 88, 89, 90,
             97, 98, 99, 100, 101, 102, 103, 104, 105, 106, 107, 108, 109,
             110, 111, 112, 113, 114, 115, 116, 117, 118, 119, 120, 121, 122,
             48, 49, 50, 51, 52, 53, 54, 55, 56, 57, 43, 47]
  {
  }

  // ----- encoding -----

  /** A three-byte group as one word. */
  function Word(a: Byte, b: Byte, c: Byte): bv32 {
    ((a as bv32) << 16) | ((b as bv32) << 8) | (c as bv32)
  }

  /** The six bits of a group that start `shift` bits above its end: always a table index. */
  function Sextet(n: bv32, shift: bv6): (v: Byte)
    requires shift <= 18
    ensures v < 64
  {
    ((n >> shift) & 0x3F) as bv8
  }

  function Group(n: bv32): Bytes {
    [Letter(Sextet(n, 18)), Letter(Sextet(n, 12)), Letter(Sextet(n, 6)), Letter(Sextet(n, 0))]
  }

  /** The last, incomplete group. */
  function Tail(s: Bytes): Bytes
    requires |s| < 3
  {
    if |s| == 0 then []
    else if |s| == 1 then Group(Word(s[0], 0, 0))[..2] + [PAD, PAD]
    else Group(Word(s[0], s[1], 0))[..3] + [PAD]
  }

  function Encode(s: Bytes): (r: Bytes)
    ensures |r| == (|s| + 2) / 3 * 4
  {
    if |s| < 3 then Tail(s) else Group(Word(s[0], s[1], s[2])) + Encode(s[3..])
  }

  method Base64Encode(s: Bytes) returns (out: Bytes)
    ensures out == Encode(s)
  {
    out := [];
    var rest := s;
    while |rest| >= 3
      invariant out + Encode(rest) == Encode(s)
    {
      var g := Group(Word(rest[0], rest[1], rest[2]));
      assert (out + g) + Encode(rest[3..]) == out + (g + Encode(rest[3..]));
      out := out + g;
      rest := rest[3..];
    }
    out := out + Tail(rest);
  }

  // ----- decoding -----

  /** The three bytes four sextets spell. */
  function Byte0(v0: Byte, v1: Byte): Byte {
    (v0 << 2) | (v1 >> 4)
  }

  function Byte1(v1: Byte, v2: Byte): Byte {
    ((v1 & 0x0F) << 4) | (v2 >> 2)
  }

  function Byte2(v2: Byte, v3: Byte): Byte {
    ((v2 & 0x03) << 6) | v3
  }

  /** The bytes of one group: nothing after the first pad of the last two positions is read. */
  function DecodeGroup(c0: Byte, c1: Byte, c2: Byte, c3: Byte): (r: Decoded)
    ensures r.Ok? ==> 1 <= |r.bytes| <= 3
    ensures !r.InvalidLength?
  {
    if !IsLetter(c0) || !IsLetter(c1) then InvalidByte
    else
      var b0 := Byte0(Value(c0), Value(c1));
      if c2 == PAD then Ok([b0])
      else if !IsLetter(c2) then InvalidByte
      else
        var b1 := Byte1(Value(c1), Value(c2));
        if c3 == PAD then Ok([b0, b1])
        else if !IsLetter(c3) then InvalidByte
        else Ok([b0, b1, Byte2(Value(c2), Value(c3))])
  }

  function DecodeGroups(s: Bytes): (r: Decoded)
    requires |s| % 4 == 0
    ensures !r.InvalidLength?
  {
    if |s| < 4 then Ok([])
    else
      var head := DecodeGroup(s[0], s[1], s[2], s[3]);
      if !head.Ok? then head
      else
        var rest := DecodeGroups(s[4..]);
        if !rest.Ok? then rest else Ok(head.bytes + rest.bytes)
  }

  function Decode(s: Bytes): Decoded {
    if |s| % 4 != 0 then InvalidLength else DecodeGroups(s)
  }

  ghost function Prepend(out: Bytes, r: Decoded): Decoded {
    if r.Ok? then Ok(out + r.bytes) else r
  }

  method Base64Decode(s: Bytes) returns (r: Decoded)
    ensures r == Decode(s)
  {
    if |s| % 4 != 0 { return InvalidLength; }
    var out: Bytes, rest := [], s;
    ghost var whole := DecodeGroups(s);
    assert whole.Ok? ==> [] + whole.bytes == whole.bytes;
    while |rest| > 0
      invariant |rest| % 4 == 0
      invariant whole == Prepend(out, DecodeGroups(rest))
    {
      var g := DecodeGroup(rest[0], rest[1], rest[2], rest[3]);
      if !g.Ok? { return g; }
      ghost var later := DecodeGroups(rest[4..]);
      assert later.Ok? ==> out + (g.bytes + later.bytes) == (out + g.bytes) + later.bytes;
      out := out + g.bytes;
      rest := rest[4..];
    }
    assert out + [] == out;
    r := Ok(out);
  }

  // ----- round trip -----

  lemma FirstByte(a: Byte, b: Byte, c: Byte)
    ensures var n := Word(a, b, c); Byte0(Sextet(n, 18), Sextet(n, 12)) == a
  {
  }

  lemma SecondByte(a: Byte, b: Byte, c: Byte)
    ensures var n := Word(a, b, c); Byte1(Sextet(n, 12), Sextet(n, 6)) == b
  {
  }

  lemma ThirdByte(a: Byte, b: Byte, c: Byte)
    ensures var n := Word(a, b, c); Byte2(Sextet(n, 6), Sextet(n, 0)) == c
  {
  }

  /** The decoder on bytes of which only the values matter. */
  lemma DecodeThree(c0: Byte, c1: Byte, c2: Byte, c3: Byte, v0: Byte, v1: Byte, v2: Byte, v3: Byte)
    requires IsLetter(c0) && IsLetter(c1) && IsLetter(c2) && IsLetter(c3) && c2 != PAD && c3 != PAD
    requires v0 == Value(c0) && v1 == Value(c1) && v2 == Value(c2) && v3 == Value(c3)
    ensures DecodeGroup(c0, c1, c2, c3) == Ok([Byte0(v0, v1), Byte1(v1, v2), Byte2(v2, v3)])
  {
  }

  lemma DecodeTwo(c0: Byte, c1: Byte, c2: Byte, v0: Byte, v1: Byte, v2: Byte)
    requires IsLetter(c0) && IsLetter(c1) && IsLetter(c2) && c2 != PAD
    requires v0 == Value(c0) && v1 == Value(c1) && v2 == Value(c2)
    ensures DecodeGroup(c0, c1, c2, PAD) == Ok([Byte0(v0, v1), Byte1(v1, v2)])
  {
  }

  lemma DecodeOne(c0: Byte, c1: Byte, c3: Byte, v0: Byte, v1: Byte)
    requires IsLetter(c0) && IsLetter(c1) && v0 == Value(c0) && v1 == Value(c1)
    ensures DecodeGroup(c0, c1, PAD, c3) == Ok([Byte0(v0, v1)])
  {
  }

  lemma FullGroup(a: Byte, b: Byte, c: Byte)
    ensures var g := Group(Word(a, b, c)); DecodeGroup(g[0], g[1], g[2], g[3]) == Ok([a, b, c])
  {
    var n := Word(a, b, c);
    var v0, v1, v2, v3 := Sextet(n, 18), Sextet(n, 12), Sextet(n, 6), Sextet(n, 0);
    FirstByte(a, b, c);
    SecondByte(a, b, c);
    ThirdByte(a, b, c);
    DecodeThree(Letter(v0), Letter(v1), Letter(v2), Letter(v3), v0, v1, v2, v3);
  }

  lemma TailGroup(s: Bytes)
    requires 1 <= |s| < 3
    ensures var g := Tail(s); |g| == 4 && DecodeGroup(g[0], g[1], g[2], g[3]) == Ok(s)
  {
    if |s| == 1 {
      var n := Word(s[0], 0, 0);
      FirstByte(s[0], 0, 0);
      DecodeOne(Letter(Sextet(n, 18)), Letter(Sextet(n, 12)), PAD, Sextet(n, 18), Sextet(n, 12));
    } else {
      var n := Word(s[0], s[1], 0);
      var v0, v1, v2 := Sextet(n, 18), Sextet(n, 12), Sextet(n, 6);
      FirstByte(s[0], s[1], 0);
      SecondByte(s[0], s[1], 0);
      DecodeTwo(Letter(v0), Letter(v1), Letter(v2), v0, v1, v2);
    }
  }

  lemma DecodeAppend(g: Bytes, rest: Bytes, b: Bytes, c: Bytes)
    requires |g| == 4 && DecodeGroup(g[0], g[1], g[2], g[3]) == Ok(b) && Decode(rest) == Ok(c)
    ensures Decode(g + rest) == Ok(b + c)
  {
    var s := g + rest;
    assert s[0] == g[0] && s[1] == g[1] && s[2] == g[2] && s[3] == g[3] && s[4..] == rest;
  }

  /** Decoding an encoding gives the bytes back. */
  lemma {:induction false} RoundTrip(s: Bytes)
    ensures Decode(Encode(s)) == Ok(s)
    decreases |s|
  {
    hide Word, Sextet, Letter, DecodeGroup;
    if |s| >= 3 {
      FullGroup(s[0], s[1], s[2]);
      RoundTrip(s[3..]);
      DecodeAppend(Group(Word(s[0], s[1], s[2])), Encode(s[3..]), s[..3], s[3..]);
      assert s[..3] + s[3..] == s;
    } else if |s| > 0 {
      TailGroup(s);
      DecodeAppend(Tail(s), [], s, []);
      assert Tail(s) + [] == Tail(s) && s + [] == s;
    }
  }

  // ----- which texts are encodings -----

  /** The unused bits of a padded group are zero and both pads are present. */
  predicate CanonicalTail(c1: Byte, c2: Byte, c3: Byte) {
    if c2 == PAD then c3 == PAD && Value(c1) & 0x0F == 0
    else c3 == PAD ==> Value(c2) & 0x03 == 0
  }

  /** Padding only in the last group, and there in its only valid form. */
  predicate Canonical(s: Bytes)
    requires |s| % 4 == 0
  {
    s == [] ||
    (if |s| == 4 then CanonicalTail(s[1], s[2], s[3])
     else s[2] != PAD && s[3] != PAD && Canonical(s[4..]))
  }

  lemma WordBack(v0: Byte, v1: Byte, v2: Byte, v3: Byte)
    requires v0 < 64 && v1 < 64 && v2 < 64 && v3 < 64
    ensures var n := Word(Byte0(v0, v1), Byte1(v1, v2), Byte2(v2, v3));
            Sextet(n, 18) == v0 && Sextet(n, 12) == v1 && Sextet(n, 6) == v2 && Sextet(n, 0) == v3
  {
  }

  lemma WordBack2(v0: Byte, v1: Byte, v2: Byte)
    requires v0 < 64 && v1 < 64 && v2 < 64
    ensures var n := Word(Byte0(v0, v1), Byte1(v1, v2), 0);
            Sextet(n, 18) == v0 && Sextet(n, 12) == v1 && (Sextet(n, 6) == v2 <==> v2 & 0x03 == 0)
  {
  }

  lemma WordBack1(v0: Byte, v1: Byte)
    requires v0 < 64 && v1 < 64
    ensures var n := Word(Byte0(v0, v1), 0, 0);
            Sextet(n, 18) == v0 && (Sextet(n, 12) == v1 <==> v1 & 0x0F == 0)
  {
  }

  lemma LetterIs(v: Byte, c: Byte)
    requires v < 64 && IsLetter(c)
    ensures Letter(v) == c <==> v == Value(c)
  {
    ValueInjective(c);
  }

  lemma GroupBack(c0: Byte, c1: Byte, c2: Byte, c3: Byte, v0: Byte, v1: Byte, v2: Byte, v3: Byte)
    requires IsLetter(c0) && IsLetter(c1) && IsLetter(c2) && IsLetter(c3) && c2 != PAD && c3 != PAD
    requires v0 == Value(c0) && v1 == Value(c1) && v2 == Value(c2) && v3 == Value(c3)
    ensures var r := DecodeGroup(c0, c1, c2, c3);
            r.Ok? && |r.bytes| == 3 && Group(Word(r.bytes[0], r.bytes[1], r.bytes[2])) == [c0, c1, c2, c3]
  {
    DecodeThree(c0, c1, c2, c3, v0, v1, v2, v3);
    WordBack(v0, v1, v2, v3);
    LetterIs(v0, c0);
    LetterIs(v1, c1);
    LetterIs(v2, c2);
    LetterIs(v3, c3);
  }

  lemma PaddedBack2(c0: Byte, c1: Byte, c2: Byte, v0: Byte, v1: Byte, v2: Byte)
    requires IsLetter(c0) && IsLetter(c1) && IsLetter(c2) && c2 != PAD
    requires v0 == Value(c0) && v1 == Value(c1) && v2 == Value(c2)
    ensures var r := DecodeGroup(c0, c1, c2, PAD);
            r.Ok? && |r.bytes| == 2 && (Tail(r.bytes) == [c0, c1, c2, PAD] <==> v2 & 0x03 == 0)
  {
    DecodeTwo(c0, c1, c2, v0, v1, v2);
    WordBack2(v0, v1, v2);
    var n := Word(Byte0(v0, v1), Byte1(v1, v2), 0);
    LetterIs(v0, c0);
    LetterIs(v1, c1);
    LetterIs(Sextet(n, 6), c2);
    assert Tail([Byte0(v0, v1), Byte1(v1, v2)]) == [c0, c1, Letter(Sextet(n, 6)), PAD];
  }

  lemma PaddedBack1(c0: Byte, c1: Byte, c3: Byte, v0: Byte, v1: Byte)
    requires IsLetter(c0) && IsLetter(c1) && v0 == Value(c0) && v1 == Value(c1)
    ensures var r := DecodeGroup(c0, c1, PAD, c3);
            r.Ok? && |r.bytes| == 1 && (Tail(r.bytes) == [c0, c1, PAD, c3] <==> c3 == PAD && v1 & 0x0F == 0)
  {
    DecodeOne(c0, c1, c3, v0, v1);
    WordBack1(v0, v1);
    var n := Word(Byte0(v0, v1), 0, 0);
    LetterIs(v0, c0);
    LetterIs(Sextet(n, 12), c1);
    assert Tail([Byte0(v0, v1)]) == [c0, Letter(Sextet(n, 12)), PAD, PAD];
    assert [c0, Letter(Sextet(n, 12)), PAD, PAD][1] == Letter(Sextet(n, 12));
    assert [c0, c1, PAD, c3][1] == c1 && [c0, c1, PAD, c3][3] == c3;
  }

  lemma PaddedBack(c0: Byte, c1: Byte, c2: Byte, c3: Byte)
    requires DecodeGroup(c0, c1, c2, c3).Ok? && (c2 == PAD || c3 == PAD)
    ensures var b := DecodeGroup(c0, c1, c2, c3).bytes;
            |b| < 3 && (Tail(b) == [c0, c1, c2, c3] <==> CanonicalTail(c1, c2, c3))
  {
    if c2 == PAD {
      PaddedBack1(c0, c1, c3, Value(c0), Value(c1));
    } else {
      PaddedBack2(c0, c1, c2, Value(c0), Value(c1), Value(c2));
    }
  }

  /** The decoder accepts more than encodings: an accepted text is one exactly when it is canonical. */
  lemma {:induction false} AcceptedIsEncoding(s: Bytes)
    requires Decode(s).Ok?
    ensures Encode(Decode(s).bytes) == s <==> Canonical(s)
    decreases |s|
  {
    if s != [] {
      var g := DecodeGroup(s[0], s[1], s[2], s[3]).bytes;
      var rest := DecodeGroups(s[4..]).bytes;
      assert s == [s[0], s[1], s[2], s[3]] + s[4..];
      if s[2] != PAD && s[3] != PAD {
        GroupBack(s[0], s[1], s[2], s[3], Value(s[0]), Value(s[1]), Value(s[2]), Value(s[3]));
        AcceptedIsEncoding(s[4..]);
        assert (g + rest)[3..] == rest;
        if |s| == 4 { assert Encode(rest) == []; }
      } else {
        PaddedBack(s[0], s[1], s[2], s[3]);
        if |s| == 4 {
          assert g + rest == g;
        } else {
          PaddedInside(s, g, rest);
        }
      }
    }
  }

  lemma PaddedInside(s: Bytes, g: Bytes, rest: Bytes)
    requires |s| > 4 && |s| % 4 == 0 && (s[2] == PAD || s[3] == PAD)
    requires 1 <= |g| < 3
    ensures Encode(g + rest) != s
  {
    if |g + rest| >= 3 {
      assert Encode(g + rest)[2] != PAD && Encode(g + rest)[3] != PAD;
    } else {
      assert |Encode(g + rest)| == 4;
    }
  }

  /** The two shapes of a group: two or three letters before the padding, or four letters. */
  predicate GroupAccepted(c0: Byte, c1: Byte, c2: Byte, c3: Byte) {
    IsLetter(c0) && IsLetter(c1) && (c2 == PAD || (IsLetter(c2) && (c3 == PAD || IsLetter(c3))))
  }

  predicate GroupsAccepted(s: Bytes)
    requires |s| % 4 == 0
  {
    s == [] || (GroupAccepted(s[0], s[1], s[2], s[3]) && GroupsAccepted(s[4..]))
  }

  /** Exactly these texts are accepted: padding in any group, and anything at all behind a first pad. */
  lemma {:induction false} AcceptedTexts(s: Bytes)
    ensures Decode(s).Ok? <==> |s| % 4 == 0 && GroupsAccepted(s)
    decreases |s|
  {
    if |s| % 4 == 0 && s != [] { AcceptedTexts(s[4..]); }
  }

  /** One text of each kind that is accepted and no encoding: AA=A, AB==, AAB= and AA==AA==. */
  lemma AcceptedNotEncodings()
    ensures Decode([65, 65, PAD, 65]) == Ok([0]) && Encode([0]) != [65, 65, PAD, 65]
    ensures Decode([65, 66, PAD, PAD]) == Ok([0]) && Encode([0]) != [65, 66, PAD, PAD]
    ensures Decode([65, 65, 66, PAD]) == Ok([0, 0]) && Encode([0, 0]) != [65, 65, 66, PAD]
    ensures Decode([65, 65, PAD, PAD, 65, 65, PAD, PAD]) == Ok([0, 0])
    ensures Encode([0, 0]) != [65, 65, PAD, PAD, 65, 65, PAD, PAD]
  {
    ZeroGroups();
    var a, b, c: Bytes := [65, 65, PAD, 65], [65, 66, PAD, PAD], [65, 65, 66, PAD];
    var one: Bytes := [65, 65, PAD, PAD];
    assert a + [] == a && b + [] == b && c + [] == c;
    DecodeAppend(a, [], [0], []);
    DecodeAppend(b, [], [0], []);
    DecodeAppend(c, [], [0, 0], []);
    DecodeAppend(one, [], [0], []);
    assert one + [] == one;
    DecodeAppend(one, one, [0], [0]);
    assert !Canonical(a) && !Canonical(b) && !Canonical(c);
    AcceptedIsEncoding(a);
    AcceptedIsEncoding(b);
    AcceptedIsEncoding(c);
    assert |Encode([0, 0])| == 4;
  }

  lemma ZeroGroups()
    ensures DecodeGroup(65, 65, PAD, 65) == Ok([0]) && DecodeGroup(65, 66, PAD, PAD) == Ok([0])
    ensures DecodeGroup(65, 65, 66, PAD) == Ok([0, 0]) && DecodeGroup(65, 65, PAD, PAD) == Ok([0])
  {
  }

  // ----- section 4 of RFC 4648, bit by bit -----

  /** The bits of a byte, the most significant one first. */
  function ByteBits(c: Byte): (bits: seq<bool>)
    ensures |bits| == 8
  {
    [c & 0x80 != 0, c & 0x40 != 0, c & 0x20 != 0, c & 0x10 != 0, c & 0x08 != 0, c & 0x04 != 0, c & 0x02 != 0, c & 0x01 != 0]
  }

  /** The input read as one bit string. */
  function InputBits(s: Bytes): (bits: seq<bool>)
    ensures |bits| == 8 * |s|
  {
    if s == [] then [] else ByteBits(s[0]) + InputBits(s[1..])
  }

  /** The six bits that a letter stands for. */
  function LetterBits(letter: Byte): seq<bool> {
    ByteBits(Value(letter))[2..]
  }

  /** Six bits from `at` on, with zero bits behind the end. */
  function SixBits(bits: seq<bool>, at: nat): seq<bool> {
    seq(6, j requires 0 <= j < 6 => at + j < |bits| && bits[at + j])
  }

  /** What the standard puts at position `i`: a letter while input bits are left, then a pad. */
  predicate Specified(c: Byte, bits: seq<bool>, i: nat) {
    if 6 * i < |bits| then IsLetter(c) && LetterBits(c) == SixBits(bits, 6 * i) else c == 61
  }

  lemma Sextet0(a: Byte, b: Byte, c: Byte, v: Byte)
    requires v == Sextet(Word(a, b, c), 18)
    ensures ByteBits(v)[2..] == ByteBits(a)[..6]
  {
  }

  lemma Sextet1(a: Byte, b: Byte, c: Byte, v: Byte)
    requires v == Sextet(Word(a, b, c), 12)
    ensures ByteBits(v)[2..] == ByteBits(a)[6..] + ByteBits(b)[..4]
  {
  }

  lemma Sextet2(a: Byte, b: Byte, c: Byte, v: Byte)
    requires v == Sextet(Word(a, b, c), 6)
    ensures ByteBits(v)[2..] == ByteBits(b)[4..] + ByteBits(c)[..2]
  {
  }

  lemma Sextet3(a: Byte, b: Byte, c: Byte, v: Byte)
    requires v == Sextet(Word(a, b, c), 0)
    ensures ByteBits(v)[2..] == ByteBits(c)[2..]
  {
  }

  /** Where the sixths of three bytes come from. */
  lemma Sixths(a: seq<bool>, b: seq<bool>, c: seq<bool>)
    requires |a| == 8 && |b| == 8 && |c| == 8
    ensures var all := a + b + c;
            && SixBits(all, 0) == a[..6] && SixBits(all, 6) == a[6..] + b[..4]
            && SixBits(all, 12) == b[4..] + c[..2] && SixBits(all, 18) == c[2..]
  {
  }

  lemma LetterOf(v: Byte, bits: seq<bool>)
    requires v < 64 && bits == ByteBits(v)[2..]
    ensures IsLetter(Letter(v)) && LetterBits(Letter(v)) == bits
  {
    assert Value(Letter(v)) == v;
  }

  lemma GroupSpells(a: Byte, b: Byte, c: Byte, g: Bytes, i: nat)
    requires g == Group(Word(a, b, c)) && i < 4
    ensures IsLetter(g[i]) && LetterBits(g[i]) == SixBits(ByteBits(a) + ByteBits(b) + ByteBits(c), 6 * i)
  {
    hide Word, Sextet, ByteBits, Letter;
    var n := Word(a, b, c);
    var v0, v1, v2, v3 := Sextet(n, 18), Sextet(n, 12), Sextet(n, 6), Sextet(n, 0);
    Sixths(ByteBits(a), ByteBits(b), ByteBits(c));
    if i == 0 {
      Sextet0(a, b, c, v0);
      LetterOf(v0, ByteBits(v0)[2..]);
    } else if i == 1 {
      Sextet1(a, b, c, v1);
      LetterOf(v1, ByteBits(v1)[2..]);
    } else if i == 2 {
      Sextet2(a, b, c, v2);
      LetterOf(v2, ByteBits(v2)[2..]);
    } else {
      Sextet3(a, b, c, v3);
      LetterOf(v3, ByteBits(v3)[2..]);
    }
  }

  lemma SixBitsOf(front: seq<bool>, back: seq<bool>, at: nat)
    ensures at + 6 <= |front| ==> SixBits(front + back, at) == SixBits(front, at)
    ensures at >= |front| ==> SixBits(front + back, at) == SixBits(back, at - |front|)
  {
  }

  lemma ZeroFill(bits: seq<bool>, zeros: seq<bool>, all: seq<bool>, at: nat)
    requires all == bits + zeros && forall i | 0 <= i < |zeros| :: !zeros[i]
    ensures SixBits(all, at) == SixBits(bits, at)
  {
    forall j | 0 <= j < 6 ensures SixBits(all, at)[j] == SixBits(bits, at)[j] {
      assert |bits| <= at + j < |all| ==> all[at + j] == zeros[at + j - |bits|];
    }
  }

  lemma ZeroByte()
    ensures forall i | 0 <= i < 8 :: !ByteBits(0)[i]
  {
  }

  lemma Assoc<T>(a: seq<T>, b: seq<T>, c: seq<T>, bc: seq<T>)
    requires bc == b + c
    ensures a + bc == (a + b) + c
  {
  }

  lemma ThreeBytes(s: Bytes, bits: seq<bool>, front: seq<bool>, back: seq<bool>)
    requires |s| >= 3 && bits == InputBits(s) && back == InputBits(s[3..])
    requires front == ByteBits(s[0]) + ByteBits(s[1]) + ByteBits(s[2])
    ensures bits == front + back
  {
    var t, u := s[1..], s[2..];
    assert t[1..] == u && u[1..] == s[3..] && t[0] == s[1] && u[0] == s[2];
    var a, b, c := ByteBits(s[0]), ByteBits(s[1]), ByteBits(s[2]);
    Assoc(b, c, back, InputBits(u));
    Assoc(a, b + c, back, InputBits(t));
    Assoc(a, b, c, b + c);
  }

  lemma OneByte(s: Bytes, a: seq<bool>, z: seq<bool>, all: seq<bool>)
    requires |s| == 1 && a == ByteBits(s[0]) && all == a + z + z
    ensures all == InputBits(s) + (z + z) && InputBits(s) == a
  {
    assert InputBits(s) == a + InputBits(s[1..]) && InputBits(s[1..]) == [];
    Assoc(a, z, z, z + z);
  }

  lemma TwoBytes(s: Bytes, a: seq<bool>, b: seq<bool>, z: seq<bool>, all: seq<bool>)
    requires |s| == 2 && a == ByteBits(s[0]) && b == ByteBits(s[1]) && all == a + b + z
    ensures all == InputBits(s) + z && InputBits(s) == a + b
  {
    var t := s[1..];
    assert InputBits(s) == a + InputBits(t) && InputBits(t) == b + InputBits(t[1..]) && InputBits(t[1..]) == [];
    assert b + [] == b;
  }

  /** The padded group at the end. */
  lemma TailSpells(s: Bytes, e: Bytes, i: nat, bits: seq<bool>)
    requires 1 <= |s| < 3 && e == Tail(s) && i < 4 && bits == InputBits(s)
    ensures Specified(e[i], bits, i)
  {
    hide Word, Sextet, ByteBits, Letter, SixBits;
    var z := ByteBits(0);
    ZeroByte();
    if |s| == 1 {
      var g, a := Group(Word(s[0], 0, 0)), ByteBits(s[0]);
      OneByte(s, a, z, a + z + z);
      ZeroFill(bits, z + z, a + z + z, 6 * i);
      GroupSpells(s[0], 0, 0, g, i);
      assert i < 2 ==> e[i] == g[i];
    } else {
      var g, a, b := Group(Word(s[0], s[1], 0)), ByteBits(s[0]), ByteBits(s[1]);
      TwoBytes(s, a, b, z, a + b + z);
      ZeroFill(bits, z, a + b + z, 6 * i);
      GroupSpells(s[0], s[1], 0, g, i);
      assert i < 3 ==> e[i] == g[i];
    }
  }

  lemma FrontOrBack(c: Byte, front: seq<bool>, back: seq<bool>, bits: seq<bool>, i: nat)
    requires |front| == 24 && bits == front + back
    requires if i < 4 then IsLetter(c) && LetterBits(c) == SixBits(front, 6 * i) else Specified(c, back, i - 4)
    ensures Specified(c, bits, i)
  {
    SixBitsOf(front, back, 6 * i);
  }

  /** The encoding is the one of the standard: six bits a letter, in order, zero bits to fill up, then pads. */
  lemma {:induction false} EncodeSpells(s: Bytes, e: Bytes, i: nat, bits: seq<bool>)
    requires e == Encode(s) && i < |e| && bits == InputBits(s)
    ensures Specified(e[i], bits, i)
    decreases |s|
  {
    if |s| < 3 {
      TailSpells(s, e, i, bits);
    } else {
      var front, back := ByteBits(s[0]) + ByteBits(s[1]) + ByteBits(s[2]), InputBits(s[3..]);
      var g, later := Group(Word(s[0], s[1], s[2])), Encode(s[3..]);
      ThreeBytes(s, bits, front, back);
      if i < 4 {
        GroupSpells(s[0], s[1], s[2], g, i);
        assert e[i] == g[i];
      } else {
        EncodeSpells(s[3..], later, i - 4, back);
        assert e[i] == later[i - 4];
      }
      FrontOrBack(e[i], front, back, bits, i);
    }
  }

  lemma SixBitsFix(u: Byte, v: Byte)
    requires u < 64 && v < 64 && ByteBits(u)[2..] == ByteBits(v)[2..]
    ensures u == v
  {
    var a, b := ByteBits(u)[2..], ByteBits(v)[2..];
    assert a[0] == b[0] && a[1] == b[1] && a[2] == b[2] && a[3] == b[3] && a[4] == b[4] && a[5] == b[5];
  }

  lemma SpelledOnce(c: Byte, d: Byte)
    requires IsLetter(c) && IsLetter(d) && LetterBits(c) == LetterBits(d)
    ensures c == d
  {
    SixBitsFix(Value(c), Value(d));
    ValueInjective(c);
    ValueInjective(d);
  }

  /** A text is the encoding if and only if it has the standard's length and, position by position, its letters and pads. */
  lemma EncodingIsSpecified(s: Bytes, r: Bytes)
    ensures r == Encode(s) <==> |r| == (|s| + 2) / 3 * 4 && forall i: nat | i < |r| :: Specified(r[i], InputBits(s), i)
  {
    var e, bits := Encode(s), InputBits(s);
    forall i: nat | i < |e| ensures Specified(e[i], bits, i) { EncodeSpells(s, e, i, bits); }
    if |r| == |e| && forall i: nat | i < |r| :: Specified(r[i], bits, i) {
      forall i: nat | i < |r| ensures r[i] == e[i] {
        if 6 * i < |bits| { SpelledOnce(r[i], e[i]); }
      }
    }
  }
}
