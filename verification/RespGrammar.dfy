/**
 The wire format, written out byte by byte: which bytes each frame is written as, and which
 byte strings are read as which frame.
 */
module RespGrammar {
  import opened Options
  import opened Resp
  import opened RespTheorems
  import opened Text
  import TextGrammar
  import Utf8

  // ----- what is written -----

  function Concat(parts: seq<Bytes>): Bytes {
    if parts == [] then [] else parts[0] + Concat(parts[1..])
  }

  function Written(items: seq<Frame>): seq<Bytes> {
    seq(|items|, i requires 0 <= i < |items| => Encode(items[i]))
  }

  /** Keys and values in turn. */
  function Alternating(pairs: seq<Pair>): seq<Frame> {
    seq(2 * |pairs|, i requires 0 <= i < 2 * |pairs| => if i % 2 == 0 then pairs[i / 2].key else pairs[i / 2].value)
  }

  lemma {:induction false} AllWritten(items: seq<Frame>)
    ensures EncodeAll(items) == Concat(Written(items))
  {
    if items != [] {
      AllWritten(items[1..]);
      assert Written(items)[1..] == Written(items[1..]);
    }
  }

  lemma {:induction false} PairsWritten(pairs: seq<Pair>)
    ensures EncodePairs(pairs) == Concat(Written(Alternating(pairs)))
  {
    if pairs != [] {
      var items, rest := Alternating(pairs), Alternating(pairs[1..]);
      PairsWritten(pairs[1..]);
      assert items == [pairs[0].key, pairs[0].value] + rest;
      assert items[1..] == [pairs[0].value] + rest && items[1..][1..] == rest;
      AllWritten(items);
      AllWritten(rest);
      assert EncodeAll(items) == Encode(pairs[0].key) + (Encode(pairs[0].value) + EncodeAll(rest));
      assert EncodePairs(pairs) == (Encode(pairs[0].key) + Encode(pairs[0].value)) + EncodePairs(pairs[1..]);
    }
  }

  /** Every variant, byte for byte; `DecimalIs` says what the digits are. */
  lemma WrittenBytes(f: Frame)
    ensures f.SimpleString? ==> Encode(f) == [43] + f.text + [13, 10]
    ensures f.Error? ==> Encode(f) == [45] + f.text + [13, 10]
    ensures f.Integer? ==> Encode(f) == [58] + (if f.n < 0 then [45] + Decimal(-f.n) else Decimal(f.n)) + [13, 10]
    ensures f.Double? ==> Encode(f) == [44] + f.text + [13, 10]
    ensures f.Boolean? ==> Encode(f) == (if f.b then [35, 116, 13, 10] else [35, 102, 13, 10])
    ensures f.Null? ==> Encode(f) == [95, 13, 10]
    ensures f.BulkString? ==> Encode(f) == [36] + Decimal(|f.data|) + [13, 10] + f.data + [13, 10]
    ensures f.NilBulk? ==> Encode(f) == [36, 45, 49, 13, 10]
    ensures f.NilArray? ==> Encode(f) == [42, 45, 49, 13, 10]
    ensures f.Array? ==> Encode(f) == [42] + Decimal(|f.items|) + [13, 10] + Concat(Written(f.items))
    ensures f.Set? ==> Encode(f) == [126] + Decimal(|f.items|) + [13, 10] + Concat(Written(f.items))
    ensures f.Map? ==> Encode(f) == [37] + Decimal(|f.pairs|) + [13, 10] + Concat(Written(Alternating(f.pairs)))
  {
    hide Concat, Written, Alternating, EncodeAll, EncodePairs;
    if f.Array? || f.Set? { AllWritten(f.items); }
    if f.Map? { PairsWritten(f.pairs); }
  }

  // ----- what is read -----

  /** A text without a line end in it. */
  predicate NoLineEnd(t: Bytes) {
    forall i | 0 <= i < |t| - 1 :: !(t[i] == 13 && t[i + 1] == 10)
  }

  /** A tag byte, a text and the end of the line. */
  predicate LineOf(s: Bytes, tag: int, t: Bytes) {
    |s| == |t| + 3 && s[0] == tag && s[1..|s| - 2] == t && s[|s| - 2..] == [13, 10] && NoLineEnd(t) && Utf8.Valid(t)
  }

  /** A line with a number, `i` bytes long, at the front. */
  predicate CountAt(s: Bytes, i: nat, tag: int, n: int) {
    3 <= i <= |s| && LineOf(s[..i], tag, s[1..i - 2]) && I64Text(s[1..i - 2], n)
  }

  /** The bytes that are read as a frame, nothing missing and nothing left over. */
  ghost predicate Spells(s: Bytes, f: Frame, depth: nat)
    decreases f, 3
  {
    match f
    case SimpleString(t) => LineOf(s, 43, t)
    case Error(t) => LineOf(s, 45, t)
    case Integer(n) => CountAt(s, |s|, 58, n)
    case Double(t) => LineOf(s, 44, t) && Utf8.IsFloat(t)
    case Boolean(b) => s == if b then [35, 116, 13, 10] else [35, 102, 13, 10]
    case Null => exists t :: LineOf(s, 95, t)
    case NilBulk => exists n :: n < 0 && CountAt(s, |s|, 36, n)
    case BulkString(data) => |data| <= 536870912 && exists i: nat :: i <= |s| && CountAt(s, i, 36, |data|) && s[i..] == data + [13, 10]
    case NilArray => depth < 128 && exists n :: n < 0 && (CountAt(s, |s|, 42, n) || CountAt(s, |s|, 126, n))
    case Array(items) => SpellsList(s, 42, items, depth) || SpellsCommand(s, items)
    case Set(items) => SpellsList(s, 126, items, depth)
    case Map(pairs) =>
      depth < 128 && |pairs| <= 1048576 && exists i: nat :: i <= |s| && CountAt(s, i, 37, |pairs|) && SpellsPairs(s[i..], pairs, depth + 1)
  }

  ghost predicate SpellsList(s: Bytes, tag: int, items: seq<Frame>, depth: nat)
    decreases items, 2
  {
    depth < 128 && |items| <= 1048576 && exists i: nat :: i <= |s| && CountAt(s, i, tag, |items|) && SpellsAll(s[i..], items, depth + 1)
  }

  ghost predicate SpellsAll(s: Bytes, items: seq<Frame>, depth: nat)
    decreases items, 1
  {
    if items == [] then s == []
    else exists k: nat :: k <= |s| && Spells(s[..k], items[0], depth) && SpellsAll(s[k..], items[1..], depth)
  }

  ghost predicate SpellsPairs(s: Bytes, pairs: seq<Pair>, depth: nat)
    decreases pairs, 1
  {
    if pairs == [] then s == []
    else exists k: nat :: k <= |s| && SpellsPair(s[..k], pairs[0], depth) && SpellsPairs(s[k..], pairs[1..], depth)
  }

  ghost predicate SpellsPair(s: Bytes, p: Pair, depth: nat)
    decreases p, 0
  {
    exists k: nat :: k <= |s| && Spells(s[..k], p.key, depth) && Spells(s[k..], p.value, depth)
  }

  /** The data of a list of bulk strings. */
  function Payloads(items: seq<Frame>): seq<Bytes>
    requires forall i | 0 <= i < |items| :: items[i].BulkString?
  {
    if items == [] then [] else [items[0].data] + Payloads(items[1..])
  }

  /** A line that starts with none of the ten tags is the list of its words. */
  ghost predicate SpellsCommand(s: Bytes, items: seq<Frame>) {
    && |s| >= 2 && s[0] !in {43, 45, 58, 44, 35, 95, 36, 42, 126, 37}
    && s[|s| - 2..] == [13, 10] && NoLineEnd(s[..|s| - 2]) && Utf8.Valid(s[..|s| - 2])
    && (forall i | 0 <= i < |items| :: items[i].BulkString?)
    && TextGrammar.Splits(s[..|s| - 2], Payloads(items))
  }

  // ----- lines and counts -----

  lemma LineIs(s: Bytes, t: Bytes, n: nat)
    ensures ParseLine(s) == Done(t, n) <==>
              n == |t| + 2 <= |s| && s[..|t|] == t && s[|t|..n] == [13, 10] && NoLineEnd(t) && Utf8.Valid(t)
  {
    hide Utf8.Valid, NoLineEnd, ParseLine;
    if ParseLine(s) == Done(t, n) { LineFound(s, t, n); }
    if n == |t| + 2 <= |s| && s[..|t|] == t && s[|t|..n] == [13, 10] && NoLineEnd(t) && Utf8.Valid(t) {
      var rest := s[n..];
      assert s == t + CRLF + rest;
      OneLineIs(t);
      LineRoundTrip(t, rest);
    }
  }

  lemma OneLineIs(t: Bytes)
    ensures OneLine(t) <==> NoLineEnd(t)
  {
    forall i | 0 <= i < |t| - 1 ensures CrlfAt(t, i) <==> t[i] == 13 && t[i + 1] == 10 {
    }
    forall i | 0 <= i < |t| && CrlfAt(t, i) ensures i < |t| - 1 {
    }
  }

  lemma LineFound(s: Bytes, t: Bytes, n: nat)
    requires ParseLine(s) == Done(t, n)
    ensures n == |t| + 2 <= |s| && s[..|t|] == t && s[|t|..n] == [13, 10] && NoLineEnd(t) && Utf8.Valid(t)
  {
    hide Utf8.Valid;
    var i := FindCrlf(s, 0);
    assert CrlfAt(s, i) && s[i..i + 2] == [s[i], s[i + 1]];
    forall j | 0 <= j < |t| - 1 ensures !(t[j] == 13 && t[j + 1] == 10) { assert !CrlfAt(s, j); }
  }

  /** The line behind the tag. */
  lemma TaggedLine(s: Bytes, t: Bytes, m: nat)
    requires s != []
    ensures ParseLine(s[1..]) == Done(t, m) <==> m + 1 <= |s| && LineOf(s[..m + 1], s[0], t)
  {
    hide Utf8.Valid, ParseLine, NoLineEnd;
    var body := s[1..];
    LineIs(body, t, m);
    if m + 1 <= |s| && m >= 2 {
      var front := s[..m + 1];
      assert front[1..m - 1] == body[..m - 2] && front[m - 1..] == body[m - 2..m];
    }
  }

  /** The number behind the tag. */
  lemma TaggedCount(s: Bytes, v: int, m: nat)
    requires s != []
    ensures ParseLength(ParseLine(s[1..])) == Done(v, m) <==> CountAt(s, m + 1, s[0], v)
  {
    hide Utf8.Valid, LineOf, I64Text, ParseI64;
    var line := ParseLine(s[1..]);
    if line.Done? {
      TaggedLine(s, line.value, line.used);
      ParseI64Is(line.value, v);
      LineText(s, line.used + 1, s[0], line.value);
    }
    if CountAt(s, m + 1, s[0], v) {
      TaggedLine(s, s[1..m - 1], m);
      ParseI64Is(s[1..m - 1], v);
    }
  }

  lemma LineText(s: Bytes, i: nat, tag: int, t: Bytes)
    requires i <= |s| && LineOf(s[..i], tag, t)
    ensures 3 <= i && t == s[1..i - 2]
  {
    assert s[..i][1..i - 2] == s[1..i - 2];
  }

  /** A count line depends on its own bytes only. */
  lemma CountWithin(s: Bytes, n: nat, i: nat, tag: int, v: int)
    requires i <= n <= |s|
    ensures CountAt(s[..n], i, tag, v) <==> CountAt(s, i, tag, v)
  {
    hide LineOf, I64Text;
    assert s[..n][..i] == s[..i];
    if 3 <= i { assert s[..n][1..i - 2] == s[1..i - 2]; }
  }

  // ----- frames of one line -----

  lemma Dispatch(s: Bytes, depth: nat)
    requires s != []
    ensures s[0] in {43, 45, 58, 44, 35, 95} ==> ParseFrame(s, depth) == After(1, Scalar(s[0], ParseLine(s[1..])))
    ensures s[0] == 36 ==> ParseFrame(s, depth) == After(1, ParseBulk(s[1..]))
    ensures s[0] == 42 || s[0] == 126 ==> ParseFrame(s, depth) == After(1, ParseArray(s[1..], s[0], depth + 1))
    ensures s[0] == 37 ==> ParseFrame(s, depth) == After(1, ParseMap(s[1..], depth + 1))
    ensures s[0] !in {43, 45, 58, 44, 35, 95, 36, 42, 126, 37} ==> ParseFrame(s, depth) == ParseInline(s)
  {
  }

  // ----- the first byte -----

  /** The bytes a frame can start with. */
  predicate Starts(b: int, f: Frame) {
    match f
    case SimpleString(_) => b == 43
    case Error(_) => b == 45
    case Integer(_) => b == 58
    case Double(_) => b == 44
    case Boolean(_) => b == 35
    case Null => b == 95
    case BulkString(_) => b == 36
    case NilBulk => b == 36
    case Array(_) => b !in {43, 45, 58, 44, 35, 95, 36, 126, 37}
    case NilArray => b == 42 || b == 126
    case Set(_) => b == 126
    case Map(_) => b == 37
  }

  lemma CountTag(s: Bytes, i: nat, tag: int, v: int)
    requires CountAt(s, i, tag, v)
    ensures 3 <= i <= |s| && s[0] == tag
  {
    assert s[..i][0] == s[0];
  }

  lemma FirstByte(s: Bytes, f: Frame, depth: nat)
    requires Spells(s, f, depth)
    ensures s != [] && Starts(s[0], f)
  {
    hide CountAt, SpellsList, SpellsAll, SpellsPairs, Utf8.Valid, Utf8.IsFloat, TextGrammar.Splits, NoLineEnd;
    match f {
      case Integer(n) => CountTag(s, |s|, 58, n);
      case NilBulk => var n :| n < 0 && CountAt(s, |s|, 36, n); CountTag(s, |s|, 36, n);
      case BulkString(data) =>
        var i: nat :| i <= |s| && CountAt(s, i, 36, |data|) && s[i..] == data + [13, 10];
        CountTag(s, i, 36, |data|);
      case NilArray =>
        var n :| n < 0 && (CountAt(s, |s|, 42, n) || CountAt(s, |s|, 126, n));
        CountTag(s, |s|, if CountAt(s, |s|, 42, n) then 42 else 126, n);
      case Array(items) => if SpellsList(s, 42, items, depth) { ListFirst(s, 42, items, depth); }
      case Set(items) => ListFirst(s, 126, items, depth);
      case Map(pairs) =>
        var i: nat :| i <= |s| && CountAt(s, i, 37, |pairs|) && SpellsPairs(s[i..], pairs, depth + 1);
        CountTag(s, i, 37, |pairs|);
      case _ =>
    }
  }

  lemma ListFirst(s: Bytes, tag: int, items: seq<Frame>, depth: nat)
    requires SpellsList(s, tag, items, depth)
    ensures s != [] && s[0] == tag
  {
    var i: nat :| i <= |s| && CountAt(s, i, tag, |items|) && SpellsAll(s[i..], items, depth + 1);
    assert s[..i][0] == s[0];
  }

  /** Reading and the grammar say the same about one frame and one length. */
  ghost predicate Agrees(s: Bytes, depth: nat, f: Frame, n: nat) {
    ParseFrame(s, depth) == Done(f, n) <==> n <= |s| && Spells(s[..n], f, depth)
  }

  lemma NothingAgrees(depth: nat, f: Frame, n: nat)
    ensures Agrees([], depth, f, n)
  {
    hide Spells, ParseFrame;
    var none: Bytes := [];
    if Spells(none, f, depth) { FirstByte(none, f, depth); }
    EmptyWaits(depth);
    assert none[..0] == none;
  }

  lemma EmptyWaits(depth: nat)
    ensures ParseFrame([], depth) == More
  {
  }

  // ----- frames of one line -----

  lemma BooleanBytes(s: Bytes, t: Bytes, b: bool)
    requires LineOf(s, 35, t) && t == (if b then [116] else [102])
    ensures s == if b then [35, 116, 13, 10] else [35, 102, 13, 10]
  {
    assert |s| == 4 && s == [s[0]] + s[1..2] + s[2..];
  }

  lemma {:induction false} ScalarRead(s: Bytes, depth: nat, f: Frame, n: nat)
    requires s != [] && s[0] in {43, 45, 58, 44, 35, 95} && ParseFrame(s, depth) == Done(f, n)
    ensures n <= |s| && Spells(s[..n], f, depth)
  {
    hide ParseFrame, ParseLine, Utf8.IsFloat, ParseI64, I64Text, LineOf;
    Dispatch(s, depth);
    var line := ParseLine(s[1..]);
    var t, front := line.value, s[..n];
    TaggedLine(s, t, line.used);
    assert LineOf(front, s[0], t);
    if f.Integer? {
      ParseI64Is(t, f.n);
      LineText(s, n, 58, t);
      assert front[..n] == front && front[1..n - 2] == t;
    }
    if f.Boolean? { BooleanBytes(front, t, f.b); }
  }

  lemma {:induction false} ScalarWritten(s: Bytes, depth: nat, f: Frame, n: nat)
    requires n <= |s| && Spells(s[..n], f, depth) && s != [] && s[0] in {43, 45, 58, 44, 35, 95}
    ensures ParseFrame(s, depth) == Done(f, n)
  {
    hide ParseFrame, ParseLine, Utf8.IsFloat, ParseI64, I64Text;
    var front := s[..n];
    FirstByte(front, f, depth);
    Dispatch(s, depth);
    if f.Integer? {
      assert front[..n] == front;
      TaggedLine(s, front[1..n - 2], n - 1);
      ParseI64Is(front[1..n - 2], f.n);
    } else if f.Boolean? {
      BooleanLine(front, f.b);
      TaggedLine(s, front[1..n - 2], n - 1);
    } else if f.Null? {
      var t :| LineOf(front, 95, t);
      TaggedLine(s, t, n - 1);
    } else {
      TaggedLine(s, f.text, n - 1);
    }
  }

  lemma BooleanLine(s: Bytes, b: bool)
    requires s == if b then [35, 116, 13, 10] else [35, 102, 13, 10]
    ensures LineOf(s, 35, s[1..|s| - 2]) && s[1..|s| - 2] == if b then [116] else [102]
  {
    Utf8.AsciiIsValid(s[1..2]);
  }

  // ----- bulk strings -----

  /** Where the payload and the line end of a bulk string are, seen with and without its tag. */
  lemma BulkTail(s: Bytes, i: nat, len: nat, front: Bytes)
    requires 1 <= i && i + len + 2 <= |s| && front == s[..i + len + 2]
    ensures front[i..] == s[1..][i - 1..i - 1 + len] + s[1..][i - 1 + len..i + 1 + len]
  {
    var body, n := s[1..], i + len + 2;
    Rest(s, n, i);
    assert body[i - 1..i - 1 + len] == s[i..i + len];
    assert body[i - 1 + len..i + 1 + len] == s[i + len..n];
  }

  lemma {:induction false} BulkRead(s: Bytes, depth: nat, f: Frame, n: nat)
    requires s != [] && s[0] == 36 && ParseFrame(s, depth) == Done(f, n)
    ensures n <= |s| && Spells(s[..n], f, depth)
  {
    hide ParseFrame, ParseLine, I64Text, LineOf;
    Dispatch(s, depth);
    var body := s[1..];
    var head := ParseLength(ParseLine(body));
    TaggedCount(s, head.value, head.used);
    var front, i := s[..n], head.used + 1;
    CountWithin(s, n, i, 36, head.value);
    if f.BulkString? {
      BulkTail(s, i, head.value, front);
      assert CountAt(front, i, 36, |f.data|) && front[i..] == f.data + [13, 10];
    } else {
      assert head.value < 0 && CountAt(front, |front|, 36, head.value);
    }
  }

  lemma {:induction false} BulkWritten(s: Bytes, depth: nat, f: Frame, n: nat)
    requires n <= |s| && Spells(s[..n], f, depth) && s != [] && s[0] == 36
    ensures ParseFrame(s, depth) == Done(f, n)
  {
    hide ParseFrame, ParseLine, I64Text, LineOf, ParseLength;
    var front, body := s[..n], s[1..];
    FirstByte(front, f, depth);
    Dispatch(s, depth);
    if f.NilBulk? {
      var v :| v < 0 && CountAt(front, |front|, 36, v);
      CountWithin(s, n, n, 36, v);
      TaggedCount(s, v, n - 1);
    } else {
      var data := f.data;
      var i: nat :| i <= |front| && CountAt(front, i, 36, |data|) && front[i..] == data + [13, 10];
      CountWithin(s, n, i, 36, |data|);
      TaggedCount(s, |data|, i - 1);
      BulkBytes(s, n, i, data);
      BulkAt(body, data, i - 1);
    }
  }

  lemma BulkBytes(s: Bytes, n: nat, i: nat, data: Bytes)
    requires 1 <= i <= n <= |s| && s[..n][i..] == data + [13, 10]
    ensures n == i + |data| + 2 && s[1..][i - 1..i - 1 + |data|] == data && s[1..][i - 1 + |data|..i + 1 + |data|] == CRLF
  {
    var tail := s[..n][i..];
    assert tail[..|data|] == data && tail[|data|..] == [13, 10];
    assert s[1..][i - 1..i - 1 + |data|] == tail[..|data|] && s[1..][i - 1 + |data|..i + 1 + |data|] == tail[|data|..];
  }

  // ----- commands -----

  lemma {:induction false} PayloadsAre(items: seq<Frame>)
    requires forall i | 0 <= i < |items| :: items[i].BulkString?
    ensures |Payloads(items)| == |items| && forall i | 0 <= i < |items| :: Payloads(items)[i] == items[i].data
  {
    if items != [] { PayloadsAre(items[1..]); }
  }

  lemma {:induction false} CommandRead(s: Bytes, depth: nat, f: Frame, n: nat)
    requires s != [] && s[0] !in {43, 45, 58, 44, 35, 95, 36, 42, 126, 37} && ParseFrame(s, depth) == Done(f, n)
    ensures n <= |s| && Spells(s[..n], f, depth)
  {
    hide ParseFrame, ParseLine, Utf8.Valid, Utf8.Words, NoLineEnd, TextGrammar.Splits, SpellsList;
    Dispatch(s, depth);
    var line := ParseLine(s);
    var words := Utf8.Words(line.value, []);
    LineIs(s, line.value, line.used);
    TextGrammar.WordsAre(line.value, words);
    var front := s[..n];
    assert front[..n - 2] == line.value && front[n - 2..] == s[n - 2..n];
    PayloadsAre(f.items);
    assert words == Payloads(f.items);
    assert SpellsCommand(front, f.items);
  }

  /** Only a command is spelled without a tag. */
  lemma OnlyCommand(s: Bytes, depth: nat, f: Frame)
    requires Spells(s, f, depth) && (s != [] ==> s[0] !in {43, 45, 58, 44, 35, 95, 36, 42, 126, 37})
    ensures f.Array? && SpellsCommand(s, f.items)
  {
    hide SpellsCommand;
    FirstByte(s, f, depth);
    if SpellsList(s, 42, f.items, depth) { ListFirst(s, 42, f.items, depth); }
  }

  lemma {:induction false} CommandWritten(s: Bytes, items: seq<Frame>, n: nat)
    requires n <= |s| && SpellsCommand(s[..n], items)
    ensures ParseInline(s) == Done(Array(items), n)
  {
    hide ParseLine, Utf8.Valid, Utf8.Words, NoLineEnd, TextGrammar.Splits, SpellsList;
    var front := s[..n];
    var t := front[..n - 2];
    var words := Payloads(items);
    PayloadsAre(items);
    assert s[..|t|] == t && s[|t|..n] == front[n - 2..];
    LineIs(s, t, n);
    TextGrammar.WordsAre(t, words);
    assert seq(|words|, i requires 0 <= i < |words| => BulkString(words[i])) == items;
  }

  // ----- lists and maps -----

  lemma HeaderIs(s: Bytes, depth: nat, v: int, m: nat)
    requires s != []
    ensures ParseHeader(s[1..], depth + 1) == Done(v, m) <==> depth < 128 && v <= 1048576 && CountAt(s, m + 1, s[0], v)
  {
    hide CountAt, ParseLine;
    TaggedCount(s, v, m);
  }

  lemma Rest(s: Bytes, n: nat, i: nat)
    requires 1 <= i <= n <= |s|
    ensures s[..n][i..] == s[i..][..n - i] && s[1..][i - 1..] == s[i..]
  {
  }

  /** A list of items behind its count, and the null list. */
  lemma ListSpelled(front: Bytes, depth: nat, f: Frame, i: nat, v: int)
    requires front != [] && (front[0] == 42 || front[0] == 126) && depth < 128 && v <= 1048576
    requires i <= |front| && CountAt(front, i, front[0], v)
    requires if v < 0 then f.NilArray? && i == |front|
             else (if front[0] == 126 then f.Set? else f.Array?) && |f.items| == v && SpellsAll(front[i..], f.items, depth + 1)
    ensures Spells(front, f, depth)
  {
    hide CountAt, SpellsAll, SpellsCommand;
    assert v >= 0 ==> SpellsList(front, front[0], f.items, depth);
  }

  lemma {:induction false} ListRead(s: Bytes, depth: nat, f: Frame, n: nat)
    requires s != [] && (s[0] == 42 || s[0] == 126) && ParseFrame(s, depth) == Done(f, n)
    ensures n <= |s| && Spells(s[..n], f, depth)
    decreases |s|, 0, 0
  {
    hide ParseFrame, ParseItems, ParseHeader, CountAt, SpellsAll, Spells;
    Dispatch(s, depth);
    var head := ParseHeader(s[1..], depth + 1);
    var front, i, v := s[..n], head.used + 1, head.value;
    HeaderIs(s, depth, v, head.used);
    CountWithin(s, n, i, s[0], v);
    Rest(s, n, i);
    if v >= 0 { ItemsAre(s[i..], v, depth + 1, f.items, n - i); }
    ListSpelled(front, depth, f, i, v);
  }

  lemma {:induction false} ListWritten(s: Bytes, depth: nat, f: Frame, n: nat)
    requires n <= |s| && Spells(s[..n], f, depth) && s != [] && (s[0] == 42 || s[0] == 126)
    ensures ParseFrame(s, depth) == Done(f, n)
    decreases |s|, 0, 0
  {
    hide ParseFrame, ParseItems, ParseHeader, CountAt, SpellsAll;
    var front, body := s[..n], s[1..];
    FirstByte(front, f, depth);
    Dispatch(s, depth);
    if f.NilArray? {
      var v :| v < 0 && (CountAt(front, |front|, 42, v) || CountAt(front, |front|, 126, v));
      CountTag(front, |front|, if CountAt(front, |front|, 42, v) then 42 else 126, v);
      CountWithin(s, n, n, s[0], v);
      HeaderIs(s, depth, v, n - 1);
    } else {
      var items := f.items;
      assert SpellsList(front, s[0], items, depth);
      var i: nat :| i <= |front| && CountAt(front, i, s[0], |items|) && SpellsAll(front[i..], items, depth + 1);
      CountTag(front, i, s[0], |items|);
      CountWithin(s, n, i, s[0], |items|);
      HeaderIs(s, depth, |items|, i - 1);
      Rest(s, n, i);
      ItemsAre(s[i..], |items|, depth + 1, items, n - i);
    }
  }

  lemma {:induction false} MapRead(s: Bytes, depth: nat, f: Frame, n: nat)
    requires s != [] && s[0] == 37 && ParseFrame(s, depth) == Done(f, n)
    ensures n <= |s| && Spells(s[..n], f, depth)
    decreases |s|, 0, 0
  {
    hide ParseFrame, ParsePairs, ParseHeader, CountAt, SpellsPairs;
    Dispatch(s, depth);
    var head := ParseHeader(s[1..], depth + 1);
    HeaderIs(s, depth, head.value, head.used);
    var front, i, pairs := s[..n], head.used + 1, f.pairs;
    CountWithin(s, n, i, 37, head.value);
    Rest(s, n, i);
    PairsAre(s[i..], head.value, depth + 1, pairs, n - i);
    assert CountAt(front, i, 37, |pairs|) && SpellsPairs(front[i..], pairs, depth + 1);
  }

  lemma {:induction false} MapWritten(s: Bytes, depth: nat, f: Frame, n: nat)
    requires n <= |s| && Spells(s[..n], f, depth) && s != [] && s[0] == 37
    ensures ParseFrame(s, depth) == Done(f, n)
    decreases |s|, 0, 0
  {
    hide ParseFrame, ParsePairs, ParseHeader, CountAt, SpellsPairs;
    var front := s[..n];
    FirstByte(front, f, depth);
    Dispatch(s, depth);
    var pairs := f.pairs;
    var i: nat :| i <= |front| && CountAt(front, i, 37, |pairs|) && SpellsPairs(front[i..], pairs, depth + 1);
    CountTag(front, i, 37, |pairs|);
    CountWithin(s, n, i, 37, |pairs|);
    HeaderIs(s, depth, |pairs|, i - 1);
    Rest(s, n, i);
    PairsAre(s[i..], |pairs|, depth + 1, pairs, n - i);
  }

  lemma Piece(s: Bytes, n: nat, k: nat)
    requires k <= n <= |s|
    ensures s[..n][..k] == s[..k] && s[..n][k..] == s[k..][..n - k]
  {
  }

  lemma {:induction false} ItemsAre(s: Bytes, k: nat, depth: nat, fs: seq<Frame>, n: nat)
    ensures ParseItems(s, k, depth) == Done(fs, n) <==> n <= |s| && |fs| == k && SpellsAll(s[..n], fs, depth)
    decreases |s|, k + 1
  {
    hide ParseFrame, Spells, Agrees;
    if k > 0 {
      var r := ParseFrame(s, depth);
      if r.Done? && ParseItems(s, k, depth) == Done(fs, n) {
        var f, u := r.value, r.used;
        FrameIs(s, depth, f, u);
        ItemsAre(s[u..], k - 1, depth, fs[1..], n - u);
        Piece(s, n, u);
      }
      if n <= |s| && |fs| == k && SpellsAll(s[..n], fs, depth) {
        var u: nat :| u <= n && Spells(s[..n][..u], fs[0], depth) && SpellsAll(s[..n][u..], fs[1..], depth);
        Piece(s, n, u);
        FrameIs(s, depth, fs[0], u);
        ItemsAre(s[u..], k - 1, depth, fs[1..], n - u);
        assert [fs[0]] + fs[1..] == fs;
      }
    }
  }

  lemma {:induction false} PairIs(s: Bytes, depth: nat, p: Pair, n: nat)
    ensures ParsePair(s, depth) == Done(p, n) <==> n <= |s| && SpellsPair(s[..n], p, depth)
    decreases |s|, 1
  {
    hide ParseFrame, Spells, Agrees;
    var r := ParseFrame(s, depth);
    if ParsePair(s, depth) == Done(p, n) {
      FrameIs(s, depth, p.key, r.used);
      FrameIs(s[r.used..], depth, p.value, n - r.used);
      Piece(s, n, r.used);
    }
    if n <= |s| && SpellsPair(s[..n], p, depth) {
      var u: nat :| u <= n && Spells(s[..n][..u], p.key, depth) && Spells(s[..n][u..], p.value, depth);
      Piece(s, n, u);
      FrameIs(s, depth, p.key, u);
      FrameIs(s[u..], depth, p.value, n - u);
    }
  }

  lemma {:induction false} PairsAre(s: Bytes, k: nat, depth: nat, ps: seq<Pair>, n: nat)
    ensures ParsePairs(s, k, depth) == Done(ps, n) <==> n <= |s| && |ps| == k && SpellsPairs(s[..n], ps, depth)
    decreases |s|, k + 2
  {
    hide ParsePair, SpellsPair;
    if k > 0 {
      var r := ParsePair(s, depth);
      if r.Done? && ParsePairs(s, k, depth) == Done(ps, n) {
        var p, u := r.value, r.used;
        var rest, front := s[u..], s[..n];
        PairIs(s, depth, p, u);
        PairsAre(rest, k - 1, depth, ps[1..], n - u);
        Piece(s, n, u);
        assert front[..u] == s[..u] && front[u..] == rest[..n - u];
      }
      if n <= |s| && |ps| == k && SpellsPairs(s[..n], ps, depth) {
        var front := s[..n];
        var u: nat :| u <= n && SpellsPair(front[..u], ps[0], depth) && SpellsPairs(front[u..], ps[1..], depth);
        var rest := s[u..];
        Piece(s, n, u);
        assert front[..u] == s[..u] && front[u..] == rest[..n - u];
        PairIs(s, depth, ps[0], u);
        PairsAre(rest, k - 1, depth, ps[1..], n - u);
        assert [ps[0]] + ps[1..] == ps;
      }
    }
  }

  /** The parser reads a frame from the front of its input exactly when those bytes spell the frame. */
  lemma {:induction false} FrameIs(s: Bytes, depth: nat, f: Frame, n: nat)
    ensures ParseFrame(s, depth) == Done(f, n) <==> n <= |s| && Spells(s[..n], f, depth)
    decreases |s|, 0, 1
  {
    hide ParseFrame, Spells;
    if s == [] {
      NothingAgrees(depth, f, n);
    } else if s[0] in {43, 45, 58, 44, 35, 95} {
      if ParseFrame(s, depth) == Done(f, n) { ScalarRead(s, depth, f, n); }
      if n <= |s| && Spells(s[..n], f, depth) { ScalarWritten(s, depth, f, n); }
    } else if s[0] == 36 {
      if ParseFrame(s, depth) == Done(f, n) { BulkRead(s, depth, f, n); }
      if n <= |s| && Spells(s[..n], f, depth) { BulkWritten(s, depth, f, n); }
    } else if s[0] == 42 || s[0] == 126 {
      if ParseFrame(s, depth) == Done(f, n) { ListRead(s, depth, f, n); }
      if n <= |s| && Spells(s[..n], f, depth) { ListWritten(s, depth, f, n); }
    } else if s[0] == 37 {
      if ParseFrame(s, depth) == Done(f, n) { MapRead(s, depth, f, n); }
      if n <= |s| && Spells(s[..n], f, depth) { MapWritten(s, depth, f, n); }
    } else {
      if ParseFrame(s, depth) == Done(f, n) { CommandRead(s, depth, f, n); }
      if n <= |s| && Spells(s[..n], f, depth) {
        assert s[..n] != [] ==> s[..n][0] == s[0];
        OnlyCommand(s[..n], depth, f);
        CommandWritten(s, f.items, n);
        Dispatch(s, depth);
      }
    }
  }
}
