/**
 What the codec promises: an answer never changes when more bytes arrive, every storable
 frame is read back exactly, and a stream cut into chunks anywhere gives the same frames.
 */
module RespTheorems {
  import opened Options
  import opened Resp
  import opened Text
  import Utf8

  // ----- stability: more input never changes an answer -----

  lemma LineStable(s: Bytes, t: Bytes)
    requires !ParseLine(s).More?
    ensures ParseLine(s + t) == ParseLine(s)
  {
    var i, k := FindCrlf(s, 0), FindCrlf(s + t, 0);
    assert CrlfAt(s, i) && CrlfAt(s + t, i);
    assert k < i ==> CrlfAt(s, k) == CrlfAt(s + t, k);
    assert (s + t)[..i] == s[..i];
  }

  lemma BulkStable(s: Bytes, t: Bytes)
    requires !ParseBulk(s).More?
    ensures ParseBulk(s + t) == ParseBulk(s)
  {
    LineStable(s, t);
    var r := ParseLength(ParseLine(s));
    if r.Done? && 0 <= r.value <= MAX_BULK_LEN {
      var a, b := r.used, r.used + r.value;
      assert (s + t)[a..b] == s[a..b] && (s + t)[b..b + 2] == s[b..b + 2];
    }
  }

  lemma {:induction false} FrameStable(s: Bytes, t: Bytes, depth: nat)
    requires !ParseFrame(s, depth).More?
    ensures ParseFrame(s + t, depth) == ParseFrame(s, depth)
    decreases |s|, 0
  {
    var body := s[1..];
    assert (s + t)[1..] == body + t;
    if s[0] in {T_SIMPLE, T_ERROR, T_INTEGER, T_DOUBLE, T_BOOLEAN, T_NULL} {
      LineStable(body, t);
    } else if s[0] == T_BULK {
      BulkStable(body, t);
    } else if s[0] == T_ARRAY || s[0] == T_SET {
      ArrayStable(body, t, s[0], depth + 1);
    } else if s[0] == T_MAP {
      MapStable(body, t, depth + 1);
    } else {
      LineStable(s, t);
    }
  }

  lemma {:induction false} ArrayStable(s: Bytes, t: Bytes, kind: Byte, depth: nat)
    requires !ParseArray(s, kind, depth).More?
    ensures ParseArray(s + t, kind, depth) == ParseArray(s, kind, depth)
    decreases |s|, 0
  {
    if depth <= MAX_NESTING_DEPTH {
      LineStable(s, t);
      var h := ParseHeader(s, depth);
      if h.Done? && h.value >= 0 {
        assert (s + t)[h.used..] == s[h.used..] + t;
        ItemsStable(s[h.used..], t, h.value, depth);
      }
    }
  }

  lemma {:induction false} ItemsStable(s: Bytes, t: Bytes, n: nat, depth: nat)
    requires !ParseItems(s, n, depth).More?
    ensures ParseItems(s + t, n, depth) == ParseItems(s, n, depth)
    decreases |s|, n + 1
  {
    if n > 0 {
      FrameStable(s, t, depth);
      var r := ParseFrame(s, depth);
      if r.Done? {
        assert (s + t)[r.used..] == s[r.used..] + t;
        ItemsStable(s[r.used..], t, n - 1, depth);
      }
    }
  }

  lemma {:induction false} MapStable(s: Bytes, t: Bytes, depth: nat)
    requires !ParseMap(s, depth).More?
    ensures ParseMap(s + t, depth) == ParseMap(s, depth)
    decreases |s|, 0
  {
    if depth <= MAX_NESTING_DEPTH {
      LineStable(s, t);
      var h := ParseHeader(s, depth);
      if h.Done? && h.value >= 0 {
        assert (s + t)[h.used..] == s[h.used..] + t;
        PairsStable(s[h.used..], t, h.value, depth);
      }
    }
  }

  lemma {:induction false} PairsStable(s: Bytes, t: Bytes, n: nat, depth: nat)
    requires !ParsePairs(s, n, depth).More?
    ensures ParsePairs(s + t, n, depth) == ParsePairs(s, n, depth)
    decreases |s|, n + 1
  {
    hide ParsePair;
    if n > 0 {
      var all, r := s + t, ParsePair(s, depth);
      PairStable(s, t, depth);
      if r.Done? {
        var tail := s[r.used..];
        assert all[r.used..] == tail + t;
        PairsStable(tail, t, n - 1, depth);
      }
    }
  }

  lemma {:induction false} PairStable(s: Bytes, t: Bytes, depth: nat)
    requires !ParsePair(s, depth).More?
    ensures ParsePair(s + t, depth) == ParsePair(s, depth)
    decreases |s|, 1
  {
    FrameStable(s, t, depth);
    var r := ParseFrame(s, depth);
    if r.Done? {
      assert (s + t)[r.used..] == s[r.used..] + t;
      FrameStable(s[r.used..], t, depth);
    }
  }

  // ----- round trip -----

  predicate OneLine(s: Bytes) {
    forall i | 0 <= i < |s| :: !CrlfAt(s, i)
  }

  /** What the source's types guarantee of any frame value. */
  predicate Typed(f: Frame)
    decreases f, 1
  {
    match f
    case SimpleString(t) => Utf8.Valid(t)
    case Error(t) => Utf8.Valid(t)
    case Integer(n) => I64_MIN <= n <= I64_MAX
    case Double(t) => Utf8.IsFloat(t)
    case Array(items) => AllTyped(items)
    case Set(items) => AllTyped(items)
    case Map(pairs) => PairsTyped(pairs)
    case _ => true
  }

  predicate AllTyped(items: seq<Frame>)
    decreases items, 0
  {
    items == [] || (Typed(items[0]) && AllTyped(items[1..]))
  }

  predicate PairsTyped(pairs: seq<Pair>)
    decreases pairs, 0
  {
    pairs == [] || (PairTyped(pairs[0]) && PairsTyped(pairs[1..]))
  }

  predicate PairTyped(p: Pair)
    decreases p, 0
  {
    Typed(p.key) && Typed(p.value)
  }

  /** The frames that survive the wire: one-line texts, bounded lengths and nesting. */
  predicate Encodable(f: Frame, depth: nat)
    decreases f, 1
  {
    match f
    case SimpleString(t) => OneLine(t)
    case Error(t) => OneLine(t)
    case BulkString(data) => |data| <= MAX_BULK_LEN
    case NilArray => depth < MAX_NESTING_DEPTH
    case Array(items) => depth < MAX_NESTING_DEPTH && |items| <= MAX_MULTIBULK_LEN && AllEncodable(items, depth + 1)
    case Set(items) => depth < MAX_NESTING_DEPTH && |items| <= MAX_MULTIBULK_LEN && AllEncodable(items, depth + 1)
    case Map(pairs) => depth < MAX_NESTING_DEPTH && |pairs| <= MAX_MULTIBULK_LEN && PairsEncodable(pairs, depth + 1)
    case _ => true
  }

  predicate AllEncodable(items: seq<Frame>, depth: nat)
    decreases items, 0
  {
    items == [] || (Encodable(items[0], depth) && AllEncodable(items[1..], depth))
  }

  predicate PairsEncodable(pairs: seq<Pair>, depth: nat)
    decreases pairs, 0
  {
    pairs == [] || (PairEncodable(pairs[0], depth) && PairsEncodable(pairs[1..], depth))
  }

  predicate PairEncodable(p: Pair, depth: nat)
    decreases p, 0
  {
    Encodable(p.key, depth) && Encodable(p.value, depth)
  }

  lemma LineEnd(text: Bytes, rest: Bytes)
    ensures var i := FindCrlf(text + CRLF + rest, 0);
            if OneLine(text) then i == |text| else i < |text|
  {
    var s := text + CRLF + rest;
    var i := FindCrlf(s, 0);
    assert CrlfAt(s, |text|);
    assert forall j | 0 <= j < |text| - 1 :: CrlfAt(s, j) == CrlfAt(text, j);
  }

  /** Reading back a text written as a line gives the text exactly when it is one line. */
  lemma LineRoundTrip(text: Bytes, rest: Bytes)
    requires Utf8.Valid(text)
    ensures var r := ParseLine(text + CRLF + rest);
            if OneLine(text) then r == Done(text, |text| + 2) else !r.More? && !(r.Done? && r.value == text)
  {
    var s := text + CRLF + rest;
    LineEnd(text, rest);
    assert s[..|text|] == text;
  }

  lemma AsciiLine(text: Bytes, rest: Bytes)
    requires forall b | b in text :: Utf8.Plain(b)
    ensures ParseLine(text + CRLF + rest) == Done(text, |text| + 2)
  {
    Utf8.AsciiIsValid(text);
    forall i | 0 <= i < |text| ensures !CrlfAt(text, i) { assert text[i] in text; }
    LineRoundTrip(text, rest);
  }

  lemma DigitsPlain(n: int)
    ensures forall b | b in DecimalInt(n) :: Utf8.Plain(b)
  {
    var m: nat := if n < 0 then -n else n;
    forall b | b in Decimal(m) ensures Utf8.Plain(b) { assert IsDigit(b); }
  }

  lemma LengthRoundTrip(n: nat, rest: Bytes)
    ensures var r := ParseLength(ParseLine(Decimal(n) + CRLF + rest));
            if n <= I64_MAX then r == Done(n, |Decimal(n)| + 2) else r == Fail(BadLength)
  {
    DigitsPlain(n);
    AsciiLine(Decimal(n), rest);
    DecimalValue(n);
    assert Decimal(n)[0] in Decimal(n);
  }

  lemma Cut(a: Bytes, b: Bytes, c: Bytes, d: Bytes)
    ensures var s, n := a + (b + c + d), |a| + |b|;
            s[|a|..n] == b && s[n..n + |c|] == c
  {
  }

  lemma Assoc(a: Bytes, b: Bytes, c: Bytes)
    ensures (a + b) + c == a + (b + c) && (a + b)[|a|..] == b
  {
  }

  lemma LineThen(tag: Byte, body: Bytes, rest: Bytes)
    ensures Line(tag, body) + rest == [tag] + (body + CRLF + rest)
  {
  }

  lemma HeaderThen(tag: Byte, n: nat, payload: Bytes, rest: Bytes)
    ensures Header(tag, n) + payload + rest == [tag] + (Decimal(n) + CRLF + (payload + rest))
  {
    Assoc(Header(tag, n), payload, rest);
    LineThen(tag, Decimal(n), payload + rest);
  }

  /** How the parser dispatches on a tag. */
  lemma Tagged(tag: Byte, body: Bytes, depth: nat)
    ensures tag in {T_SIMPLE, T_ERROR, T_INTEGER, T_DOUBLE, T_BOOLEAN, T_NULL} ==>
              ParseFrame([tag] + body, depth) == After(1, Scalar(tag, ParseLine(body)))
    ensures tag == T_BULK ==> ParseFrame([tag] + body, depth) == After(1, ParseBulk(body))
    ensures tag == T_ARRAY || tag == T_SET ==>
              ParseFrame([tag] + body, depth) == After(1, ParseArray(body, tag, depth + 1))
    ensures tag == T_MAP ==> ParseFrame([tag] + body, depth) == After(1, ParseMap(body, depth + 1))
  {
    assert ([tag] + body)[1..] == body;
  }

  lemma TextRoundTrip(f: Frame, depth: nat, rest: Bytes)
    requires Typed(f) && (f.SimpleString? || f.Error?)
    ensures var r := ParseFrame(Encode(f) + rest, depth);
            if Encodable(f, depth) then r == Done(f, |Encode(f)|) else !(r.Done? && r.value == f)
  {
    var tag := if f.SimpleString? then T_SIMPLE else T_ERROR;
    LineThen(tag, f.text, rest);
    Tagged(tag, f.text + CRLF + rest, depth);
    LineRoundTrip(f.text, rest);
  }

  lemma ScalarRoundTrip(f: Frame, depth: nat, rest: Bytes)
    requires Typed(f) && (f.Integer? || f.Double? || f.Boolean? || f.Null?)
    ensures ParseFrame(Encode(f) + rest, depth) == Done(f, |Encode(f)|)
  {
    var (tag, body) := match f
      case Integer(n) => (T_INTEGER, DecimalInt(n))
      case Double(t) => (T_DOUBLE, t)
      case Boolean(b) => (T_BOOLEAN, if b then TRUE else FALSE)
      case _ => (T_NULL, []);
    LineThen(tag, body, rest);
    Tagged(tag, body + CRLF + rest, depth);
    if f.Integer? {
      DigitsPlain(f.n);
      I64RoundTrip(f.n);
    } else if f.Double? {
      Utf8.FloatPlain(body);
    }
    AsciiLine(body, rest);
  }

  lemma BulkAt(s: Bytes, data: Bytes, n: nat)
    requires ParseLength(ParseLine(s)) == Done(|data|, n) && |data| <= MAX_BULK_LEN
    requires n + |data| + 2 <= |s|
    requires s[n..n + |data|] == data && s[n + |data|..n + |data| + 2] == CRLF
    ensures ParseBulk(s) == Done(BulkString(data), n + |data| + 2)
  {
  }

  lemma BulkBody(data: Bytes, rest: Bytes)
    ensures var r := ParseBulk(Decimal(|data|) + CRLF + (data + CRLF + rest));
            if |data| <= MAX_BULK_LEN then r == Done(BulkString(data), |Decimal(|data|)| + |data| + 4)
            else r.Fail?
  {
    var head := Decimal(|data|) + CRLF;
    var s := head + (data + CRLF + rest);
    LengthRoundTrip(|data|, data + CRLF + rest);
    if |data| <= MAX_BULK_LEN {
      Cut(head, data, CRLF, rest);
      BulkAt(s, data, |head|);
    }
  }

  lemma BulkRoundTrip(data: Bytes, depth: nat, rest: Bytes)
    ensures var f := BulkString(data);
            var r := ParseFrame(Encode(f) + rest, depth);
            if Encodable(f, depth) then r == Done(f, |Encode(f)|) else !(r.Done? && r.value == f)
  {
    BulkBody(data, rest);
    Assoc(Header(T_BULK, |data|), data, CRLF);
    Assoc(data, CRLF, rest);
    HeaderThen(T_BULK, |data|, data + CRLF, rest);
    Tagged(T_BULK, Decimal(|data|) + CRLF + (data + CRLF + rest), depth);
  }

  lemma NilRoundTrip(f: Frame, depth: nat, rest: Bytes)
    requires f.NilBulk? || f.NilArray?
    ensures var r := ParseFrame(Encode(f) + rest, depth);
            if Encodable(f, depth) then r == Done(f, |Encode(f)|) else !(r.Done? && r.value == f)
  {
    var tag := if f.NilBulk? then T_BULK else T_ARRAY;
    var line := DecimalInt(-1) + CRLF + rest;
    DigitsPlain(-1);
    I64RoundTrip(-1);
    AsciiLine(DecimalInt(-1), rest);
    LineThen(tag, DecimalInt(-1), rest);
    Tagged(tag, line, depth);
  }

  lemma HeaderRoundTrip(n: nat, payload: Bytes, depth: nat)
    ensures var h := ParseHeader(Decimal(n) + CRLF + payload, depth);
            if depth <= MAX_NESTING_DEPTH && n <= MAX_MULTIBULK_LEN then
              h == Done(n, |Decimal(n)| + 2) && (Decimal(n) + CRLF + payload)[h.used..] == payload
            else h.Fail?
  {
    LengthRoundTrip(n, payload);
  }

  /**
   A frame written and read back is itself, with exactly its own bytes consumed, if and
   only if it is encodable; otherwise the reader answers an error or a different frame.
   */
  lemma {:induction false} FrameRoundTrip(f: Frame, depth: nat, rest: Bytes)
    requires Typed(f)
    ensures var r := ParseFrame(Encode(f) + rest, depth);
            if Encodable(f, depth) then r == Done(f, |Encode(f)|) else !(r.Done? && r.value == f)
    decreases f, 1
  {
    match f {
      case BulkString(data) => BulkRoundTrip(data, depth, rest);
      case NilBulk => NilRoundTrip(f, depth, rest);
      case NilArray => NilRoundTrip(f, depth, rest);
      case Array(items) => ArrayRoundTrip(items, f, depth, rest);
      case Set(items) => SetRoundTrip(items, f, depth, rest);
      case Map(pairs) => MapRoundTrip(pairs, depth, rest);
      case SimpleString(_) => TextRoundTrip(f, depth, rest);
      case Error(_) => TextRoundTrip(f, depth, rest);
      case _ => ScalarRoundTrip(f, depth, rest);
    }
  }

  lemma {:induction false} ArrayBody(items: seq<Frame>, kind: Byte, f: Frame, depth: nat, rest: Bytes, body: Bytes)
    requires AllTyped(items) && f == (if kind == T_SET then Set(items) else Array(items))
    requires body == Decimal(|items|) + CRLF + (EncodeAll(items) + rest)
    ensures var r := ParseArray(body, kind, depth);
            if depth <= MAX_NESTING_DEPTH && |items| <= MAX_MULTIBULK_LEN && AllEncodable(items, depth)
            then r == Done(f, |Decimal(|items|)| + 2 + |EncodeAll(items)|)
            else !(r.Done? && r.value == f)
    decreases items, 1
  {
    HeaderRoundTrip(|items|, EncodeAll(items) + rest, depth);
    ItemsRoundTrip(items, depth, rest);
  }

  lemma ArrayDispatch(items: seq<Frame>, tag: Byte, f: Frame, depth: nat, rest: Bytes, s: Bytes, body: Bytes)
    requires (tag == T_ARRAY || tag == T_SET) && f == (if tag == T_SET then Set(items) else Array(items))
    requires s == Encode(f) + rest && body == Decimal(|items|) + CRLF + (EncodeAll(items) + rest)
    ensures ParseFrame(s, depth) == After(1, ParseArray(body, tag, depth + 1))
    ensures |Encode(f)| == |Decimal(|items|)| + 3 + |EncodeAll(items)|
  {
    assert Encode(f) == Header(tag, |items|) + EncodeAll(items);
    HeaderThen(tag, |items|, EncodeAll(items), rest);
    Tagged(tag, body, depth);
  }

  /** What the tag adds to a body's answer. */
  lemma Wrapped(p: Parsed<Frame>, f: Frame, n: nat, ok: bool)
    requires if ok then p == Done(f, n) else !(p.Done? && p.value == f)
    ensures var r := After(1, p); if ok then r == Done(f, n + 1) else !(r.Done? && r.value == f)
  {
  }

  lemma {:induction false} ArrayRoundTrip(items: seq<Frame>, f: Frame, depth: nat, rest: Bytes)
    requires AllTyped(items) && f == Array(items)
    ensures var r := ParseFrame(Encode(f) + rest, depth);
            if Encodable(f, depth) then r == Done(f, |Encode(f)|) else !(r.Done? && r.value == f)
    decreases items, 2
  {
    hide ParseFrame, ParseArray, Encode, EncodeAll;
    var s, body := Encode(f) + rest, Decimal(|items|) + CRLF + (EncodeAll(items) + rest);
    ArrayDispatch(items, T_ARRAY, f, depth, rest, s, body);
    ArrayBody(items, T_ARRAY, f, depth + 1, rest, body);
    Wrapped(ParseArray(body, T_ARRAY, depth + 1), f, |Encode(f)| - 1, Encodable(f, depth));
  }

  lemma {:induction false} SetRoundTrip(items: seq<Frame>, f: Frame, depth: nat, rest: Bytes)
    requires AllTyped(items) && f == Set(items)
    ensures var r := ParseFrame(Encode(f) + rest, depth);
            if Encodable(f, depth) then r == Done(f, |Encode(f)|) else !(r.Done? && r.value == f)
    decreases items, 2
  {
    hide ParseFrame, ParseArray, Encode, EncodeAll;
    var s, body := Encode(f) + rest, Decimal(|items|) + CRLF + (EncodeAll(items) + rest);
    ArrayDispatch(items, T_SET, f, depth, rest, s, body);
    ArrayBody(items, T_SET, f, depth + 1, rest, body);
    Wrapped(ParseArray(body, T_SET, depth + 1), f, |Encode(f)| - 1, Encodable(f, depth));
  }

  lemma MapDispatch(pairs: seq<Pair>, f: Frame, depth: nat, rest: Bytes, s: Bytes, body: Bytes)
    requires f == Map(pairs) && s == Encode(f) + rest && body == Decimal(|pairs|) + CRLF + (EncodePairs(pairs) + rest)
    ensures ParseFrame(s, depth) == After(1, ParseMap(body, depth + 1))
    ensures |Encode(f)| == |Decimal(|pairs|)| + 3 + |EncodePairs(pairs)|
  {
    assert Encode(f) == Header(T_MAP, |pairs|) + EncodePairs(pairs);
    HeaderThen(T_MAP, |pairs|, EncodePairs(pairs), rest);
    Tagged(T_MAP, body, depth);
  }

  lemma {:induction false} MapBody(pairs: seq<Pair>, f: Frame, depth: nat, rest: Bytes, body: Bytes)
    requires PairsTyped(pairs) && f == Map(pairs) && body == Decimal(|pairs|) + CRLF + (EncodePairs(pairs) + rest)
    ensures var r := ParseMap(body, depth);
            if depth <= MAX_NESTING_DEPTH && |pairs| <= MAX_MULTIBULK_LEN && PairsEncodable(pairs, depth)
            then r == Done(f, |Decimal(|pairs|)| + 2 + |EncodePairs(pairs)|)
            else !(r.Done? && r.value == f)
    decreases pairs, 1
  {
    HeaderRoundTrip(|pairs|, EncodePairs(pairs) + rest, depth);
    PairsRoundTrip(pairs, depth, rest);
  }

  lemma {:induction false} MapRoundTrip(pairs: seq<Pair>, depth: nat, rest: Bytes)
    requires PairsTyped(pairs)
    ensures var f := Map(pairs);
            var r := ParseFrame(Encode(f) + rest, depth);
            if Encodable(f, depth) then r == Done(f, |Encode(f)|) else !(r.Done? && r.value == f)
    decreases pairs, 2
  {
    hide ParseFrame, ParseMap, Encode, EncodePairs;
    var f := Map(pairs);
    var s, body := Encode(f) + rest, Decimal(|pairs|) + CRLF + (EncodePairs(pairs) + rest);
    MapDispatch(pairs, f, depth, rest, s, body);
    MapBody(pairs, f, depth + 1, rest, body);
    Wrapped(ParseMap(body, depth + 1), f, |Encode(f)| - 1, Encodable(f, depth));
  }

  lemma Regroup(a: Bytes, b: Bytes, c: Bytes, ab: Bytes, bc: Bytes, abc: Bytes)
    requires ab == a + b && bc == b + c && abc == ab + c
    ensures abc == a + bc && abc[|a|..] == bc
  {
  }

  lemma ConsEqual<T>(x: T, xs: seq<T>, y: T, ys: seq<T>)
    ensures [x] + xs == [y] + ys <==> x == y && xs == ys
  {
    if [x] + xs == [y] + ys {
      assert ([x] + xs)[0] == x && ([y] + ys)[0] == y;
      assert ([x] + xs)[1..] == xs && ([y] + ys)[1..] == ys;
    }
  }

  /** Reading one more element: `e` is what the first one occupied, if it was read at all. */
  lemma FirstItem(s: Bytes, e: Bytes, more: Bytes, f: Frame, n: nat, tail: seq<Frame>, depth: nat)
    requires |s| == |e| + |more| && s[|e|..] == more
    ensures var first, rest, r := ParseFrame(s, depth), ParseItems(more, n, depth), ParseItems(s, n + 1, depth);
            && (first == Done(f, |e|) && rest.Done? ==> r == Done([f] + rest.value, |e| + rest.used))
            && (first == Done(f, |e|) && !rest.Done? ==> !r.Done?)
            && (r.Done? && r.value == [f] + tail ==> first.Done? && first.value == f && (first.used == |e| ==> rest.Done? && rest.value == tail))
  {
    var first := ParseFrame(s, depth);
    if first.Done? {
      var later := ParseItems(s[first.used..], n, depth);
      if later.Done? { ConsEqual(first.value, later.value, f, tail); }
    }
  }

  lemma FirstPair(s: Bytes, e: Bytes, more: Bytes, p: Pair, n: nat, tail: seq<Pair>, depth: nat)
    requires |s| == |e| + |more| && s[|e|..] == more
    ensures var first, rest, r := ParsePair(s, depth), ParsePairs(more, n, depth), ParsePairs(s, n + 1, depth);
            && (first == Done(p, |e|) && rest.Done? ==> r == Done([p] + rest.value, |e| + rest.used))
            && (first == Done(p, |e|) && !rest.Done? ==> !r.Done?)
            && (r.Done? && r.value == [p] + tail ==> first.Done? && first.value == p && (first.used == |e| ==> rest.Done? && rest.value == tail))
  {
    var first := ParsePair(s, depth);
    if first.Done? {
      var later := ParsePairs(s[first.used..], n, depth);
      if later.Done? { ConsEqual(first.value, later.value, p, tail); }
    }
  }

  lemma {:induction false} ItemsRoundTrip(items: seq<Frame>, depth: nat, rest: Bytes)
    requires AllTyped(items)
    ensures var r := ParseItems(EncodeAll(items) + rest, |items|, depth);
            if AllEncodable(items, depth) then r == Done(items, |EncodeAll(items)|)
            else !(r.Done? && r.value == items)
    decreases items, 0
  {
    hide ParseFrame, Encode;
    if items != [] {
      var f, tail := items[0], items[1..];
      var e, later, whole := Encode(f), EncodeAll(tail), EncodeAll(items);
      var s, more := whole + rest, later + rest;
      Regroup(e, later, rest, whole, more, s);
      FrameRoundTrip(f, depth, more);
      ItemsRoundTrip(tail, depth, rest);
      FirstItem(s, e, more, f, |tail|, tail, depth);
      assert items == [f] + tail;
    }
  }

  lemma {:induction false} PairsRoundTrip(pairs: seq<Pair>, depth: nat, rest: Bytes)
    requires PairsTyped(pairs)
    ensures var r := ParsePairs(EncodePairs(pairs) + rest, |pairs|, depth);
            if PairsEncodable(pairs, depth) then r == Done(pairs, |EncodePairs(pairs)|)
            else !(r.Done? && r.value == pairs)
    decreases pairs, 0
  {
    hide ParsePair, EncodePair;
    if pairs != [] {
      var p, tail := pairs[0], pairs[1..];
      var e, later, whole := EncodePair(p), EncodePairs(tail), EncodePairs(pairs);
      var s, more := whole + rest, later + rest;
      Regroup(e, later, rest, whole, more, s);
      PairRoundTrip(p, depth, more);
      PairsRoundTrip(tail, depth, rest);
      FirstPair(s, e, more, p, |tail|, tail, depth);
      assert pairs == [p] + tail;
    }
  }

  lemma {:induction false} PairRoundTrip(p: Pair, depth: nat, rest: Bytes)
    requires PairTyped(p)
    ensures var r := ParsePair(EncodePair(p) + rest, depth);
            if PairEncodable(p, depth) then r == Done(p, |EncodePair(p)|) else !(r.Done? && r.value == p)
    decreases p, 0
  {
    var more := Encode(p.value) + rest;
    Assoc(Encode(p.key), Encode(p.value), rest);
    Assoc(Encode(p.key), more, []);
    FrameRoundTrip(p.key, depth, more);
    FrameRoundTrip(p.value, depth, rest);
  }

  lemma CutWaits(whole: Bytes, f: Frame, k: nat)
    requires ParseFrame(whole, 0) == Done(f, |whole|) && k < |whole|
    ensures ParseFrame(whole[..k], 0) == More
  {
    var cut := whole[..k];
    assert cut + whole[k..] == whole;
    if ParseFrame(cut, 0) != More { FrameStable(cut, whole[k..], 0); }
  }

  /** A frame cut short anywhere is never mistaken: the parser asks for more bytes. */
  lemma PrefixWaits(f: Frame, k: nat)
    requires Typed(f) && Encodable(f, 0) && k < |Encode(f)|
    ensures ParseFrame(Encode(f)[..k], 0) == More
  {
    FrameRoundTrip(f, 0, []);
    assert Encode(f) + [] == Encode(f);
    CutWaits(Encode(f), f, k);
  }

  // ----- streams -----

  /** The frames decoded so far, the bytes still buffered, and the error that closed the stream. */
  datatype Drained = Drained(frames: seq<Frame>, rest: Bytes, failed: Option<ProtocolError>) {
    function Behind(fs: seq<Frame>): Drained {
      Drained(fs + frames, rest, failed)
    }
  }

  /** Decoding a buffer until more bytes are needed or an error ends the connection. */
  function Drain(buffer: Bytes): (d: Drained)
    decreases |buffer|
  {
    match ParseFrame(buffer, 0)
    case More => Drained([], buffer, None)
    case Fail(e) => Drained([], buffer, Some(e))
    case Done(f, n) => Drain(buffer[n..]).Behind([f])
  }

  /** Receiving chunk after chunk, draining the buffer after each one. */
  function Receive(buffer: Bytes, chunks: seq<Bytes>): Drained
    decreases |chunks|
  {
    if chunks == [] then Drained([], buffer, None)
    else
      var d := Drain(buffer + chunks[0]);
      if d.failed.Some? then d else Receive(d.rest, chunks[1..]).Behind(d.frames)
  }

  function Flatten(chunks: seq<Bytes>): Bytes {
    if chunks == [] then [] else chunks[0] + Flatten(chunks[1..])
  }

  lemma BehindTwice(d: Drained, fs: seq<Frame>, gs: seq<Frame>)
    ensures d.Behind(fs).Behind(gs) == d.Behind(gs + fs)
  {
    assert gs + (fs + d.frames) == (gs + fs) + d.frames;
  }

  lemma {:induction false} DrainStable(a: Bytes, b: Bytes)
    ensures Drain(a).failed.None? ==> Drain(a + b) == Drain(Drain(a).rest + b).Behind(Drain(a).frames)
    ensures Drain(a).failed.Some? ==>
              Drain(a + b).frames == Drain(a).frames && Drain(a + b).failed == Drain(a).failed
    decreases |a|
  {
    var r := ParseFrame(a, 0);
    if !r.More? { FrameStable(a, b, 0); }
    if r.Done? {
      var f, tail := r.value, a[r.used..];
      assert (a + b)[r.used..] == tail + b;
      DrainStable(tail, b);
      BehindTwice(Drain(Drain(tail).rest + b), Drain(tail).frames, [f]);
    }
  }

  lemma {:induction false} DrainRestWaits(a: Bytes)
    requires Drain(a).failed.None?
    ensures Drain(Drain(a).rest) == Drained([], Drain(a).rest, None)
    decreases |a|
  {
    var r := ParseFrame(a, 0);
    if r.Done? { DrainRestWaits(a[r.used..]); }
  }

  /** For arbitrary bytes, where the stream is cut into chunks does not matter. */
  lemma {:induction false} ChunkingInvisible(buffer: Bytes, chunks: seq<Bytes>)
    requires Drain(buffer) == Drained([], buffer, None)
    ensures var d, whole := Receive(buffer, chunks), Drain(buffer + Flatten(chunks));
            d.frames == whole.frames && d.failed == whole.failed && (d.failed.None? ==> d.rest == whole.rest)
    decreases |chunks|
  {
    if chunks == [] {
      assert buffer + Flatten(chunks) == buffer;
    } else {
      var a, b := buffer + chunks[0], Flatten(chunks[1..]);
      assert buffer + Flatten(chunks) == a + b;
      DrainStable(a, b);
      if Drain(a).failed.None? {
        DrainRestWaits(a);
        ChunkingInvisible(Drain(a).rest, chunks[1..]);
      }
    }
  }

  lemma {:induction false} DrainFrames(frames: seq<Frame>)
    requires AllTyped(frames) && AllEncodable(frames, 0)
    ensures Drain(EncodeAll(frames)) == Drained(frames, [], None)
  {
    if frames != [] {
      var f, tail := frames[0], frames[1..];
      FrameRoundTrip(f, 0, EncodeAll(tail));
      assert EncodeAll(frames)[|Encode(f)|..] == EncodeAll(tail);
      DrainFrames(tail);
    }
  }

  /** Any frames, sent in any chunks, arrive as they were sent and leave nothing in the buffer. */
  lemma StreamRoundTrip(frames: seq<Frame>, chunks: seq<Bytes>)
    requires AllTyped(frames) && AllEncodable(frames, 0)
    requires Flatten(chunks) == EncodeAll(frames)
    ensures Receive([], chunks) == Drained(frames, [], None)
  {
    DrainFrames(frames);
    assert [] + Flatten(chunks) == EncodeAll(frames);
    ChunkingInvisible([], chunks);
  }
}
