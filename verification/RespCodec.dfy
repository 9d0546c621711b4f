/**
 The codec as the server runs it: a growable byte buffer written and drained in place,
 and the parser's loops over headers, elements and pairs. Every method is proved against
 the functions of `Resp`, on which the theorems of `RespTheorems` are stated.
 */
module RespCodec {
  import opened Resp
  import opened RespTheorems
  import opened Text
  import Utf8

  /** The part of `BytesMut` the codec uses. */
  class ByteBuffer {
    var bytes: Bytes

    constructor ()
      ensures bytes == []
    {
      bytes := [];
    }

    method PutByte(b: Byte)
      modifies this
      ensures bytes == old(bytes) + [b]
    {
      bytes := bytes + [b];
    }

    method Extend(s: Bytes)
      modifies this
      ensures bytes == old(bytes) + s
    {
      bytes := bytes + s;
    }

    method Advance(n: nat)
      requires n <= |bytes|
      modifies this
      ensures bytes == old(bytes)[n..]
    {
      bytes := bytes[n..];
    }
  }

  // ----- writing -----

  method WriteLine(tag: Byte, body: Bytes, dst: ByteBuffer)
    modifies dst
    ensures dst.bytes == old(dst.bytes) + Line(tag, body)
  {
    dst.PutByte(tag);
    dst.Extend(body);
    dst.Extend(CRLF);
  }

  method WriteBulk(data: Bytes, dst: ByteBuffer)
    modifies dst
    ensures dst.bytes == old(dst.bytes) + Encode(BulkString(data))
  {
    WriteLine(T_BULK, Decimal(|data|), dst);
    dst.Extend(data);
    dst.Extend(CRLF);
    assert Encode(BulkString(data)) == Header(T_BULK, |data|) + data + CRLF;
  }

  method WriteArray(tag: Byte, items: seq<Frame>, dst: ByteBuffer)
    modifies dst
    ensures dst.bytes == old(dst.bytes) + (Header(tag, |items|) + EncodeAll(items))
    decreases items, 1
  {
    WriteLine(tag, Decimal(|items|), dst);
    WriteItems(items, dst);
  }

  method WriteMap(pairs: seq<Pair>, dst: ByteBuffer)
    modifies dst
    ensures dst.bytes == old(dst.bytes) + (Header(T_MAP, |pairs|) + EncodePairs(pairs))
    decreases pairs, 1
  {
    WriteLine(T_MAP, Decimal(|pairs|), dst);
    WritePairs(pairs, dst);
  }

  method WriteFrame(f: Frame, dst: ByteBuffer)
    modifies dst
    ensures dst.bytes == old(dst.bytes) + Encode(f)
    decreases f, 1
  {
    match f {
      case SimpleString(t) => WriteLine(T_SIMPLE, t, dst);
      case Error(t) => WriteLine(T_ERROR, t, dst);
      case Integer(n) => WriteLine(T_INTEGER, DecimalInt(n), dst);
      case BulkString(data) => WriteBulk(data, dst);
      case NilBulk => WriteLine(T_BULK, DecimalInt(-1), dst);
      case Array(items) => WriteArray(T_ARRAY, items, dst);
      case NilArray => WriteLine(T_ARRAY, DecimalInt(-1), dst);
      case Null => WriteLine(T_NULL, [], dst);
      case Map(pairs) => WriteMap(pairs, dst);
      case Set(items) => WriteArray(T_SET, items, dst);
      case Double(t) => WriteLine(T_DOUBLE, t, dst);
      case Boolean(b) => WriteLine(T_BOOLEAN, if b then TRUE else FALSE, dst);
    }
  }

  method WriteItems(items: seq<Frame>, dst: ByteBuffer)
    modifies dst
    ensures dst.bytes == old(dst.bytes) + EncodeAll(items)
    decreases items, 0
  {
    for i := 0 to |items|
      invariant dst.bytes + EncodeAll(items[i..]) == old(dst.bytes) + EncodeAll(items)
    {
      ghost var before := dst.bytes;
      WriteFrame(items[i], dst);
      assert items[i..][1..] == items[i + 1..];
      Assoc(before, Encode(items[i]), EncodeAll(items[i + 1..]));
    }
  }

  method WritePairs(pairs: seq<Pair>, dst: ByteBuffer)
    modifies dst
    ensures dst.bytes == old(dst.bytes) + EncodePairs(pairs)
    decreases pairs, 0
  {
    for i := 0 to |pairs|
      invariant dst.bytes + EncodePairs(pairs[i..]) == old(dst.bytes) + EncodePairs(pairs)
    {
      ghost var before := dst.bytes;
      WritePair(pairs[i], dst);
      assert pairs[i..][1..] == pairs[i + 1..];
      Assoc(before, EncodePair(pairs[i]), EncodePairs(pairs[i + 1..]));
    }
  }

  method WritePair(p: Pair, dst: ByteBuffer)
    modifies dst
    ensures dst.bytes == old(dst.bytes) + EncodePair(p)
    decreases p, 0
  {
    WriteFrame(p.key, dst);
    WriteFrame(p.value, dst);
  }

  // ----- reading -----

  method ReadLine(src: Bytes) returns (r: Parsed<Bytes>)
    ensures r == ParseLine(src)
  {
    var i := 0;
    while i + 1 < |src|
      invariant i <= |src|
      invariant forall j | 0 <= j < i :: !CrlfAt(src, j)
    {
      if src[i] == CR && src[i + 1] == LF {
        assert CrlfAt(src, i);
        return if Utf8.Valid(src[..i]) then Done(src[..i], i + 2) else Fail(BadUtf8);
      }
      i := i + 1;
    }
    ghost var k := FindCrlf(src, 0);
    assert !(k < |src|);
    r := More;
  }

  method ReadFrame(src: Bytes, depth: nat) returns (r: Parsed<Frame>)
    ensures r == ParseFrame(src, depth)
    decreases |src|, 0
  {
    if src == [] { return More; }
    var tag, body := src[0], src[1..];
    if tag in {T_SIMPLE, T_ERROR, T_INTEGER, T_DOUBLE, T_BOOLEAN, T_NULL} {
      var line := ReadLine(body);
      r := After(1, Scalar(tag, line));
    } else if tag == T_BULK {
      r := After(1, ParseBulk(body));
    } else if tag == T_ARRAY || tag == T_SET {
      var a := ReadArray(body, tag, depth + 1);
      r := After(1, a);
    } else if tag == T_MAP {
      var m := ReadMap(body, depth + 1);
      r := After(1, m);
    } else {
      r := ParseInline(src);
    }
  }

  /** Puts the elements already read in front of what is still to come. */
  ghost function Resume<T>(read: seq<T>, used: nat, r: Parsed<seq<T>>): Parsed<seq<T>> {
    match r case Done(v, u) => Done(read + v, used + u) case Fail(e) => Fail(e) case More => More
  }

  lemma ResumeEnds<T>(read: seq<T>, used: nat, r: Parsed<seq<T>>)
    ensures Resume([], 0, r) == r && Resume(read, used, Done([], 0)) == Done(read, used)
  {
    assert read + [] == read;
    if r.Done? { assert [] + r.value == r.value; }
  }

  lemma ResumeStep<T>(read: seq<T>, used: nat, x: T, n: nat, r: Parsed<seq<T>>)
    ensures Resume(read + [x], used + n, r) == Resume(read, used, Resume([x], n, r))
  {
    if r.Done? { assert (read + [x]) + r.value == read + ([x] + r.value); }
  }

  method ReadArray(src: Bytes, kind: Byte, depth: nat) returns (r: Parsed<Frame>)
    ensures r == ParseArray(src, kind, depth)
    decreases |src|, 0
  {
    var h := ParseHeader(src, depth);
    if h.Fail? { return Fail(h.error); }
    if h.More? { return More; }
    if h.value < 0 { return Done(NilArray, h.used); }
    var items := ReadItems(src[h.used..], h.value, depth);
    if items.Fail? { return Fail(items.error); }
    if items.More? { return More; }
    r := Done(if kind == T_SET then Set(items.value) else Array(items.value), h.used + items.used);
  }

  lemma ItemsUnfold(s: Bytes, len: nat, depth: nat)
    requires len > 0
    ensures var x := ParseFrame(s, depth);
            match x
            case Fail(e) => ParseItems(s, len, depth) == Fail(e)
            case More => ParseItems(s, len, depth) == More
            case Done(v, n) => ParseItems(s, len, depth) == Resume([v], n, ParseItems(s[n..], len - 1, depth))
  {
  }

  method ReadItems(src: Bytes, len: nat, depth: nat) returns (r: Parsed<seq<Frame>>)
    ensures r == ParseItems(src, len, depth)
    decreases |src|, 1
  {
    hide ParseFrame;
    var items: seq<Frame>, tail, cursor: nat := [], src, 0;
    ghost var whole := ParseItems(src, len, depth);
    ghost var rest := whole;
    ResumeEnds(items, 0, whole);
    for i := 0 to len
      invariant |tail| + cursor == |src|
      invariant rest == ParseItems(tail, len - i, depth)
      invariant whole == Resume(items, cursor, rest)
    {
      var f := ReadFrame(tail, depth);
      ItemsUnfold(tail, len - i, depth);
      if f.Fail? { return Fail(f.error); }
      if f.More? { return More; }
      tail := tail[f.used..];
      rest := ParseItems(tail, len - i - 1, depth);
      ResumeStep(items, cursor, f.value, f.used, rest);
      items := items + [f.value];
      cursor := cursor + f.used;
    }
    ResumeEnds(items, cursor, whole);
    r := Done(items, cursor);
  }

  method ReadMap(src: Bytes, depth: nat) returns (r: Parsed<Frame>)
    ensures r == ParseMap(src, depth)
    decreases |src|, 0
  {
    var h := ParseHeader(src, depth);
    if h.Fail? { return Fail(h.error); }
    if h.More? { return More; }
    if h.value < 0 { return Fail(NullMap); }
    var pairs := ReadPairs(src[h.used..], h.value, depth);
    if pairs.Fail? { return Fail(pairs.error); }
    if pairs.More? { return More; }
    r := Done(Map(pairs.value), h.used + pairs.used);
  }

  lemma PairsUnfold(s: Bytes, len: nat, depth: nat)
    requires len > 0
    ensures var x := ParsePair(s, depth);
            match x
            case Fail(e) => ParsePairs(s, len, depth) == Fail(e)
            case More => ParsePairs(s, len, depth) == More
            case Done(v, n) => ParsePairs(s, len, depth) == Resume([v], n, ParsePairs(s[n..], len - 1, depth))
  {
  }

  method ReadPairs(src: Bytes, len: nat, depth: nat) returns (r: Parsed<seq<Pair>>)
    ensures r == ParsePairs(src, len, depth)
    decreases |src|, 2
  {
    hide ParsePair;
    var pairs: seq<Pair>, tail, cursor: nat := [], src, 0;
    ghost var whole := ParsePairs(src, len, depth);
    ghost var rest := whole;
    ResumeEnds(pairs, 0, whole);
    for i := 0 to len
      invariant |tail| + cursor == |src|
      invariant rest == ParsePairs(tail, len - i, depth)
      invariant whole == Resume(pairs, cursor, rest)
    {
      var p := ReadPair(tail, depth);
      PairsUnfold(tail, len - i, depth);
      if p.Fail? { return Fail(p.error); }
      if p.More? { return More; }
      tail := tail[p.used..];
      rest := ParsePairs(tail, len - i - 1, depth);
      ResumeStep(pairs, cursor, p.value, p.used, rest);
      pairs := pairs + [p.value];
      cursor := cursor + p.used;
    }
    ResumeEnds(pairs, cursor, whole);
    r := Done(pairs, cursor);
  }

  method ReadPair(src: Bytes, depth: nat) returns (r: Parsed<Pair>)
    ensures r == ParsePair(src, depth)
    decreases |src|, 1
  {
    var k := ReadFrame(src, depth);
    if k.Fail? { return Fail(k.error); }
    if k.More? { return More; }
    var v := ReadFrame(src[k.used..], depth);
    if v.Fail? { return Fail(v.error); }
    if v.More? { return More; }
    r := Done(Pair(k.value, v.value), k.used + v.used);
  }

  // ----- the Encoder and Decoder of the framed connection -----

  datatype Decoded = Failed(error: ProtocolError) | NeedMore | Item(frame: Frame)

  method Decode(src: ByteBuffer) returns (r: Decoded)
    modifies src
    ensures match ParseFrame(old(src.bytes), 0)
            case Fail(e) => r == Failed(e) && src.bytes == old(src.bytes)
            case More => r == NeedMore && src.bytes == old(src.bytes)
            case Done(f, n) => r == Item(f) && src.bytes == old(src.bytes)[n..]
  {
    var p := ReadFrame(src.bytes, 0);
    match p {
      case Fail(e) => r := Failed(e);
      case More => r := NeedMore;
      case Done(f, n) =>
        src.Advance(n);
        r := Item(f);
    }
  }

  /** Writing any encodable frame behind a drained buffer and decoding gives it back. */
  method WriteThenDecode(f: Frame, buffer: ByteBuffer) returns (r: Decoded)
    requires buffer.bytes == [] && Typed(f)
    modifies buffer
    ensures Encodable(f, 0) <==> r == Item(f)
    ensures r == Item(f) ==> buffer.bytes == []
  {
    WriteFrame(f, buffer);
    FrameRoundTrip(f, 0, []);
    assert Encode(f) + [] == Encode(f) && [] + Encode(f) == Encode(f);
    r := Decode(buffer);
  }
}
