/**
 The RESP3 codec of the cache server: `write_frame` and the incremental parser, as
 functions on byte strings. RESP3 specification, "Simple types" and "Aggregate data types".

 `Parsed` is the source's `io::Result<Option<(T, usize)>>`: an error, a request for
 more bytes, or a value with the number of bytes it occupied.
 */
module Resp {
  import opened Options
  import opened Text
  import Utf8

  /**
   A double is carried as the decimal text on the wire; the null forms of bulk strings and
   arrays are constructors of their own. The other variants are the source's.
   */
  datatype Frame =
    | SimpleString(text: Bytes)
    | Error(text: Bytes)
    | Integer(n: int)
    | BulkString(data: Bytes)
    | NilBulk
    | Array(items: seq<Frame>)
    | NilArray
    | Null
    | Map(pairs: seq<Pair>)
    | Set(items: seq<Frame>)
    | Double(text: Bytes)
    | Boolean(b: bool)

  datatype Pair = Pair(key: Frame, value: Frame)

  datatype ProtocolError =
    | BadUtf8 | BadInteger | BadDouble | BadBoolean | BadLength
    | BulkTooLong | MissingBulkCrlf | TooManyElements | NullMap | TooDeep

  datatype Parsed<+T> = Fail(error: ProtocolError) | More | Done(value: T, used: nat)

  const MAX_NESTING_DEPTH := 128
  const MAX_MULTIBULK_LEN := 1024 * 1024
  const MAX_BULK_LEN := 512 * 1024 * 1024

  const T_SIMPLE: Byte := 43   // +
  const T_ERROR: Byte := 45    // -
  const T_INTEGER: Byte := 58  // :
  const T_DOUBLE: Byte := 44   // ,
  const T_BOOLEAN: Byte := 35  // #
  const T_NULL: Byte := 95     // _
  const T_BULK: Byte := 36     // $
  const T_ARRAY: Byte := 42    // *
  const T_SET: Byte := 126     // ~
  const T_MAP: Byte := 37      // %
  const TRUE: Bytes := [116]
  const FALSE: Bytes := [102]

  // ----- encoding -----

  function Line(tag: Byte, body: Bytes): Bytes {
    [tag] + (body + CRLF)
  }

  function Header(tag: Byte, n: nat): Bytes {
    Line(tag, Decimal(n))
  }

  function Encode(f: Frame): (s: Bytes)
    ensures |s| > 0
    decreases f, 1
  {
    match f
    case SimpleString(t) => Line(T_SIMPLE, t)
    case Error(t) => Line(T_ERROR, t)
    case Integer(n) => Line(T_INTEGER, DecimalInt(n))
    case BulkString(data) => Header(T_BULK, |data|) + data + CRLF
    case NilBulk => Line(T_BULK, DecimalInt(-1))
    case Array(items) => Header(T_ARRAY, |items|) + EncodeAll(items)
    case NilArray => Line(T_ARRAY, DecimalInt(-1))
    case Null => Line(T_NULL, [])
    case Map(pairs) => Header(T_MAP, |pairs|) + EncodePairs(pairs)
    case Set(items) => Header(T_SET, |items|) + EncodeAll(items)
    case Double(t) => Line(T_DOUBLE, t)
    case Boolean(b) => Line(T_BOOLEAN, if b then TRUE else FALSE)
  }

  function EncodeAll(items: seq<Frame>): Bytes
    decreases items, 0
  {
    if items == [] then [] else Encode(items[0]) + EncodeAll(items[1..])
  }

  function EncodePairs(pairs: seq<Pair>): Bytes
    decreases pairs, 0
  {
    if pairs == [] then [] else EncodePair(pairs[0]) + EncodePairs(pairs[1..])
  }

  function EncodePair(p: Pair): Bytes
    decreases p, 0
  {
    Encode(p.key) + Encode(p.value)
  }

  // ----- decoding -----

  predicate CrlfAt(s: Bytes, i: nat) {
    i + 1 < |s| && s[i] == CR && s[i + 1] == LF
  }

  /** The first CRLF at or after `i`, or the end of `s`. */
  function FindCrlf(s: Bytes, i: nat): (r: nat)
    requires i <= |s|
    ensures i <= r <= |s|
    ensures r < |s| ==> CrlfAt(s, r)
    ensures forall j | i <= j < r :: !CrlfAt(s, j)
    decreases |s| - i
  {
    if i == |s| || CrlfAt(s, i) then i else FindCrlf(s, i + 1)
  }

  function ParseLine(s: Bytes): (r: Parsed<Bytes>)
    ensures r.Done? ==> 2 <= r.used == |r.value| + 2 <= |s|
  {
    var i := FindCrlf(s, 0);
    if i == |s| then More
    else if Utf8.Valid(s[..i]) then Done(s[..i], i + 2)
    else Fail(BadUtf8)
  }

  /** The frames that are one line after their tag. */
  function Scalar(tag: Byte, line: Parsed<Bytes>): (r: Parsed<Frame>)
    requires tag in {T_SIMPLE, T_ERROR, T_INTEGER, T_DOUBLE, T_BOOLEAN, T_NULL}
    ensures r.Done? ==> line.Done? && r.used == line.used
  {
    match line
    case Fail(e) => Fail(e)
    case More => More
    case Done(s, n) =>
      if tag == T_SIMPLE then Done(SimpleString(s), n)
      else if tag == T_ERROR then Done(Error(s), n)
      else if tag == T_INTEGER then
        (match ParseI64(s) case Some(v) => Done(Integer(v), n) case None => Fail(BadInteger))
      else if tag == T_DOUBLE then
        (if Utf8.IsFloat(s) then Done(Double(s), n) else Fail(BadDouble))
      else if tag == T_BOOLEAN then
        (if s == TRUE then Done(Boolean(true), n)
         else if s == FALSE then Done(Boolean(false), n)
         else Fail(BadBoolean))
      else Done(Null, n)
  }

  function ParseLength(line: Parsed<Bytes>): (r: Parsed<int>)
    ensures r.Done? ==> line.Done? && r.used == line.used
  {
    match line
    case Fail(e) => Fail(e)
    case More => More
    case Done(s, n) =>
      match ParseI64(s) case Some(v) => Done(v, n) case None => Fail(BadLength)
  }

  function ParseBulk(s: Bytes): (r: Parsed<Frame>)
    ensures r.Done? ==> 2 <= r.used <= |s|
  {
    match ParseLength(ParseLine(s))
    case Fail(e) => Fail(e)
    case More => More
    case Done(len, n) =>
      if len < 0 then Done(NilBulk, n)
      else if len > MAX_BULK_LEN then Fail(BulkTooLong)
      else if |s| < n + len + 2 then More
      else if s[n + len..n + len + 2] != CRLF then Fail(MissingBulkCrlf)
      else Done(BulkString(s[n..n + len]), n + len + 2)
  }

  /** A line without a RESP tag is a command: the array of its words. */
  function ParseInline(s: Bytes): (r: Parsed<Frame>)
    ensures r.Done? ==> 2 <= r.used <= |s|
  {
    match ParseLine(s)
    case Fail(e) => Fail(e)
    case More => More
    case Done(line, n) =>
      var words := Utf8.Words(line, []);
      Done(Array(seq(|words|, i requires 0 <= i < |words| => BulkString(words[i]))), n)
  }

  /** Counts `n` bytes already consumed in front of a result. */
  function After<T>(n: nat, r: Parsed<T>): Parsed<T> {
    match r case Done(v, u) => Done(v, n + u) case Fail(e) => Fail(e) case More => More
  }

  function ParseFrame(s: Bytes, depth: nat): (r: Parsed<Frame>)
    ensures r.Done? ==> 1 <= r.used <= |s|
    decreases |s|, 0
  {
    if s == [] then More
    else
      var body := s[1..];
      if s[0] in {T_SIMPLE, T_ERROR, T_INTEGER, T_DOUBLE, T_BOOLEAN, T_NULL} then
        After(1, Scalar(s[0], ParseLine(body)))
      else if s[0] == T_BULK then After(1, ParseBulk(body))
      else if s[0] == T_ARRAY || s[0] == T_SET then After(1, ParseArray(body, s[0], depth + 1))
      else if s[0] == T_MAP then After(1, ParseMap(body, depth + 1))
      else ParseInline(s)
  }

  /** The checked length header shared by arrays, sets and maps. */
  function ParseHeader(s: Bytes, depth: nat): (r: Parsed<int>)
    ensures r.Done? ==> 2 <= r.used <= |s| && r.value <= MAX_MULTIBULK_LEN
  {
    if depth > MAX_NESTING_DEPTH then Fail(TooDeep)
    else
      match ParseLength(ParseLine(s))
      case Fail(e) => Fail(e)
      case More => More
      case Done(len, n) => if len > MAX_MULTIBULK_LEN then Fail(TooManyElements) else Done(len, n)
  }

  function ParseArray(s: Bytes, kind: Byte, depth: nat): (r: Parsed<Frame>)
    ensures r.Done? ==> 2 <= r.used <= |s|
    decreases |s|, 0
  {
    match ParseHeader(s, depth)
    case Fail(e) => Fail(e)
    case More => More
    case Done(len, n) =>
      if len < 0 then Done(NilArray, n)
      else
        match ParseItems(s[n..], len, depth)
        case Fail(e) => Fail(e)
        case More => More
        case Done(items, u) => Done(if kind == T_SET then Set(items) else Array(items), n + u)
  }

  function ParseItems(s: Bytes, n: nat, depth: nat): (r: Parsed<seq<Frame>>)
    ensures r.Done? ==> r.used <= |s| && |r.value| == n
    decreases |s|, n + 1
  {
    if n == 0 then Done([], 0)
    else
      match ParseFrame(s, depth)
      case Fail(e) => Fail(e)
      case More => More
      case Done(f, u) =>
        match ParseItems(s[u..], n - 1, depth)
        case Fail(e) => Fail(e)
        case More => More
        case Done(fs, w) => Done([f] + fs, u + w)
  }

  function ParseMap(s: Bytes, depth: nat): (r: Parsed<Frame>)
    ensures r.Done? ==> 2 <= r.used <= |s|
    decreases |s|, 0
  {
    match ParseHeader(s, depth)
    case Fail(e) => Fail(e)
    case More => More
    case Done(len, n) =>
      if len < 0 then Fail(NullMap)
      else
        match ParsePairs(s[n..], len, depth)
        case Fail(e) => Fail(e)
        case More => More
        case Done(pairs, u) => Done(Map(pairs), n + u)
  }

  function ParsePair(s: Bytes, depth: nat): (r: Parsed<Pair>)
    ensures r.Done? ==> 2 <= r.used <= |s|
    decreases |s|, 1
  {
    match ParseFrame(s, depth)
    case Fail(e) => Fail(e)
    case More => More
    case Done(k, u) =>
      match ParseFrame(s[u..], depth)
      case Fail(e) => Fail(e)
      case More => More
      case Done(v, w) => Done(Pair(k, v), u + w)
  }

  function ParsePairs(s: Bytes, n: nat, depth: nat): (r: Parsed<seq<Pair>>)
    ensures r.Done? ==> r.used <= |s| && |r.value| == n
    decreases |s|, n + 2
  {
    if n == 0 then Done([], 0)
    else
      match ParsePair(s, depth)
      case Fail(e) => Fail(e)
      case More => More
      case Done(p, u) =>
        match ParsePairs(s[u..], n - 1, depth)
        case Fail(e) => Fail(e)
        case More => More
        case Done(ps, w) => Done([p] + ps, u + w)
  }
}
