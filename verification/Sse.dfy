/**
 The reader of server-sent events. Every chunk of text goes through the line-ending
 normaliser into a buffer, and each blank line in the buffer ends a frame, which is read
 line by line. A chunk is what the stream decoder hands over: whole characters.
 */
module Sse {
  import opened Options

  datatype Message = Message(name: string, data: string)

  // ----- line endings -----

  /** What one character adds to the buffer, when `previousCR` says that a CR came just before. */
  function Emit(previousCR: bool, c: char): string {
    if c == '\n' && previousCR then "" else if c == '\r' then "\n" else [c]
  }

  function Normalise(previousCR: bool, text: string): string
    decreases |text|
  {
    if text == "" then "" else Emit(previousCR, text[0]) + Normalise(text[0] == '\r', text[1..])
  }

  function EndsInCR(previousCR: bool, text: string): bool {
    if text == "" then previousCR else text[|text| - 1] == '\r'
  }

  method AppendChunk(buffer: string, previousCR: bool, chunk: string) returns (full: string, lastCR: bool)
    ensures full == buffer + Normalise(previousCR, chunk) && lastCR == EndsInCR(previousCR, chunk)
  {
    full, lastCR := buffer, previousCR;
    var rest := chunk;
    while rest != ""
      invariant full + Normalise(lastCR, rest) == buffer + Normalise(previousCR, chunk)
      invariant EndsInCR(lastCR, rest) == EndsInCR(previousCR, chunk)
      decreases |rest|
    {
      var c := rest[0];
      rest := rest[1..];
      if c == '\n' && lastCR { lastCR := false; continue; }
      full := full + [if c == '\r' then '\n' else c];
      lastCR := c == '\r';
    }
  }

  // ----- fields -----

  predicate StartsWith(s: string, prefix: string) {
    prefix <= s
  }

  /** White space and line terminators, as `String.prototype.trim` removes them. */
  predicate IsSpace(c: char) {
    var u := c as int;
    0x9 <= u <= 0xD || u == 0x20 || u == 0xA0 || u == 0x1680 || 0x2000 <= u <= 0x200A ||
    u == 0x2028 || u == 0x2029 || u == 0x202F || u == 0x205F || u == 0x3000 || u == 0xFEFF
  }

  function TrimStart(s: string): string {
    if s != "" && IsSpace(s[0]) then TrimStart(s[1..]) else s
  }

  function TrimEnd(s: string): string {
    if s != "" && IsSpace(s[|s| - 1]) then TrimEnd(s[..|s| - 1]) else s
  }

  function Trim(s: string): string {
    TrimEnd(TrimStart(s))
  }

  /** What trimming the front leaves: the rest of the text, which starts with no white space. */
  lemma {:induction false} TrimStartIs(s: string)
    ensures var r := TrimStart(s);
            && |r| <= |s| && s[|s| - |r|..] == r && (r == "" || !IsSpace(r[0]))
            && forall k | 0 <= k < |s| - |r| :: IsSpace(s[k])
  {
    if s != "" && IsSpace(s[0]) {
      TrimStartIs(s[1..]);
      assert forall k | 0 < k < |s| :: s[k] == s[1..][k - 1];
    }
  }

  /** What trimming the end leaves: the front of the text, which ends in no white space. */
  lemma {:induction false} TrimEndIs(s: string)
    ensures var r := TrimEnd(s);
            && r <= s && (r == "" || !IsSpace(r[|r| - 1]))
            && forall k | |r| <= k < |s| :: IsSpace(s[k])
  {
    if s != "" && IsSpace(s[|s| - 1]) { TrimEndIs(s[..|s| - 1]); }
  }

  /** The event name and the data lines gathered so far. */
  datatype Fields = Fields(name: string, data: seq<string>)

  const NOTHING := Fields("message", [])

  function FieldLine(f: Fields, line: string): Fields {
    if StartsWith(line, ":") then f
    else if StartsWith(line, "event:") then f.(name := Trim(line[6..]))
    else if StartsWith(line, "data:") then f.(data := f.data + [Trim(line[5..])])
    else f
  }

  function FieldLines(f: Fields, lines: seq<string>): Fields
    decreases |lines|
  {
    if lines == [] then f else FieldLines(FieldLine(f, lines[0]), lines[1..])
  }

  function Join(lines: seq<string>): string {
    if lines == [] then "" else if |lines| == 1 then lines[0] else lines[0] + "\n" + Join(lines[1..])
  }

  /** The pieces between line feeds; always at least one. */
  function Split(s: string): seq<string>
    decreases |s|
  {
    match IndexOf(s, "\n", 0)
    case None => [s]
    case Some(i) => [s[..i]] + Split(s[i + 1..])
  }

  function Dispatch(f: Fields): seq<Message> {
    if f.data == [] then [] else [Message(f.name, Join(f.data))]
  }

  function Frame(frame: string): seq<Message> {
    Dispatch(FieldLines(NOTHING, Split(frame)))
  }

  method ReadFrame(frame: string) returns (events: seq<Message>)
    ensures events == Frame(frame)
  {
    var eventName, dataLines := "message", [];
    var lines := Split(frame);
    while lines != []
      invariant FieldLines(Fields(eventName, dataLines), lines) == FieldLines(NOTHING, Split(frame))
      decreases |lines|
    {
      var line := lines[0];
      lines := lines[1..];
      if StartsWith(line, ":") { continue; }
      if StartsWith(line, "event:") {
        eventName := Trim(line[6..]);
      } else if StartsWith(line, "data:") {
        dataLines := dataLines + [Trim(line[5..])];
      }
    }
    events := if |dataLines| > 0 then [Message(eventName, Join(dataLines))] else [];
  }

  // ----- frames -----

  predicate At(s: string, part: string, i: nat) {
    i + |part| <= |s| && s[i..i + |part|] == part
  }

  /** `indexOf`: where `part` first occurs in `s`, at `from` or later. */
  function IndexOf(s: string, part: string, from: nat): (r: Option<nat>)
    requires from <= |s|
    ensures r.Some? ==> from <= r.value && At(s, part, r.value)
    ensures forall i: nat | from <= i && At(s, part, i) :: r.Some? && r.value <= i
    decreases |s| - from
  {
    if At(s, part, from) then Some(from)
    else if from < |s| then IndexOf(s, part, from + 1)
    else None
  }

  datatype Outcome = Outcome(events: seq<Message>, rest: string)

  /** Cuts every complete frame off the front of the buffer. */
  function Drain(buffer: string): Outcome
    decreases |buffer|
  {
    match IndexOf(buffer, "\n\n", 0)
    case None => Outcome([], buffer)
    case Some(i) =>
      var later := Drain(buffer[i + 2..]);
      Outcome(Frame(buffer[..i]) + later.events, later.rest)
  }

  method DrainBuffer(buffer: string) returns (events: seq<Message>, rest: string)
    ensures Outcome(events, rest) == Drain(buffer)
  {
    hide Frame, Drain;
    events, rest := [], buffer;
    var boundary := IndexOf(rest, "\n\n", 0);
    ghost var left := Drain(rest);
    while boundary != None
      invariant boundary == IndexOf(rest, "\n\n", 0) && left == Drain(rest)
      invariant Outcome(events + left.events, left.rest) == Drain(buffer)
      decreases |rest|
    {
      var frame := rest[..boundary.value];
      var later := rest[boundary.value + 2..];
      var emitted := ReadFrame(frame);
      left := Cut(rest, boundary.value, frame, later, left);
      assert (events + emitted) + left.events == events + (emitted + left.events);
      events := events + emitted;
      rest := later;
      boundary := IndexOf(rest, "\n\n", 0);
    }
    NoCut(rest);
    assert events + [] == events;
  }

  lemma NoCut(buffer: string)
    requires IndexOf(buffer, "\n\n", 0) == None
    ensures Drain(buffer) == Outcome([], buffer)
  {
  }

  lemma Cut(buffer: string, i: nat, frame: string, rest: string, all: Outcome) returns (later: Outcome)
    requires IndexOf(buffer, "\n\n", 0) == Some(i) && frame == buffer[..i] && rest == buffer[i + 2..]
    requires all == Drain(buffer)
    ensures later == Drain(rest) && all == Outcome(Frame(frame) + later.events, later.rest)
  {
    later := Drain(rest);
  }

  // ----- the stream -----

  function Flatten(chunks: seq<string>): string {
    if chunks == [] then "" else chunks[0] + Flatten(chunks[1..])
  }

  /** What one reading of the whole stream, normalised and then cut into frames, yields. */
  function Whole(text: string): Outcome {
    Drain(Normalise(false, text))
  }

  lemma Regroup<T>(x: seq<T>, y: seq<T>, z: seq<T>, yz: seq<T>)
    requires yz == y + z
    ensures x + yz == (x + y) + z
  {
  }

  lemma {:induction false} NormaliseAppend(previousCR: bool, a: string, b: string, both: string)
    requires both == a + b
    ensures Normalise(previousCR, both) == Normalise(previousCR, a) + Normalise(EndsInCR(previousCR, a), b)
    decreases |a|
  {
    if a == "" {
      assert both == b;
    } else {
      var cr, a', both' := a[0] == '\r', a[1..], both[1..];
      assert both' == a' + b && both[0] == a[0];
      NormaliseAppend(cr, a', b, both');
      assert EndsInCR(cr, a') == EndsInCR(previousCR, a);
      var head, x, y, xy := Emit(previousCR, a[0]), Normalise(cr, a'), Normalise(EndsInCR(cr, a'), b), Normalise(cr, both');
      Regroup(head, x, y, xy);
    }
  }

  lemma BoundaryStable(a: string, b: string)
    requires IndexOf(a, "\n\n", 0).Some?
    ensures IndexOf(a + b, "\n\n", 0) == IndexOf(a, "\n\n", 0)
  {
    var i := IndexOf(a, "\n\n", 0).value;
    var t := a + b;
    assert t[i..i + 2] == a[i..i + 2];
    assert At(t, "\n\n", i);
    var k := IndexOf(t, "\n\n", 0).value;
    assert t[k..k + 2] == a[k..k + 2];
    assert At(a, "\n\n", k);
  }

  /** Frames already complete do not depend on what follows them. */
  lemma {:induction false} DrainAppend(a: string, b: string, both: string, first: Outcome, next: Outcome)
    requires both == a + b && first == Drain(a) && next == Drain(first.rest + b)
    ensures Drain(both) == Outcome(first.events + next.events, next.rest)
    decreases |a|
  {
    var at := IndexOf(a, "\n\n", 0);
    if at.None? {
      assert first.events + next.events == next.events;
    } else {
      var i := at.value;
      BoundaryStable(a, b);
      var frame, a', both' := a[..i], a[i + 2..], both[i + 2..];
      assert both[..i] == frame && both' == a' + b;
      var later := Cut(a, i, frame, a', first);
      var all := Drain(both);
      var later' := Cut(both, i, frame, both', all);
      DrainAppend(a', b, both', later, next);
      Regroup(Frame(frame), later.events, next.events, later'.events);
    }
  }

  lemma EndsInCRAppend(previousCR: bool, a: string, b: string)
    ensures EndsInCR(previousCR, a + b) == EndsInCR(EndsInCR(previousCR, a), b)
  {
    assert b == "" ==> a + b == a;
  }

  lemma NextChunk(seen: string, chunk: string, more: string, now: Outcome, next: Outcome)
    requires now == Whole(seen) && more == Normalise(EndsInCR(false, seen), chunk) && next == Drain(now.rest + more)
    ensures Whole(seen + chunk) == Outcome(now.events + next.events, next.rest)
  {
    var a, both := Normalise(false, seen), Normalise(false, seen + chunk);
    NormaliseAppend(false, seen, chunk, seen + chunk);
    assert both == a + more;
    DrainAppend(a, more, both, now, next);
  }

  /**
   The reader itself, over the chunks its source delivers: the events, the leftover buffer
   and the pending CR depend on nothing but the characters of the whole stream.
   */
  method ReadStream(chunks: seq<string>) returns (events: seq<Message>, buffer: string, previousCR: bool)
    ensures Outcome(events, buffer) == Whole(Flatten(chunks))
    ensures previousCR == EndsInCR(false, Flatten(chunks))
  {
    events, buffer, previousCR := [], "", false;
    var pending := chunks;
    ghost var seen := "";
    while pending != []
      invariant seen + Flatten(pending) == Flatten(chunks)
      invariant Outcome(events, buffer) == Whole(seen)
      invariant previousCR == EndsInCR(false, seen)
      decreases |pending|
    {
      var chunk := pending[0];
      pending := pending[1..];
      assert seen + (chunk + Flatten(pending)) == (seen + chunk) + Flatten(pending);
      ghost var now, more := Outcome(events, buffer), Normalise(previousCR, chunk);
      buffer, previousCR := AppendChunk(buffer, previousCR, chunk);
      var emitted;
      emitted, buffer := DrainBuffer(buffer);
      events := events + emitted;
      NextChunk(seen, chunk, more, now, Outcome(emitted, buffer));
      EndsInCRAppend(false, seen, chunk);
      seen := seen + chunk;
    }
    assert seen + "" == seen;
  }

  // ----- the three line endings -----

  /** Section 9.2.5 of the WHATWG HTML Standard: a line ends at CRLF, at LF alone or at CR alone. */
  function LineFeeds(text: string): string
    decreases |text|
  {
    if text == "" then ""
    else if text[0] == '\r' && |text| > 1 && text[1] == '\n' then "\n" + LineFeeds(text[2..])
    else [if text[0] == '\r' then '\n' else text[0]] + LineFeeds(text[1..])
  }

  /** Looking back at the last character does the work of looking ahead to the next one. */
  lemma {:induction false} NormaliserMeetsStandard(text: string)
    ensures Normalise(false, text) == LineFeeds(text)
    decreases |text|
  {
    if text != "" {
      var tail := text[1..];
      if text[0] == '\r' && tail != "" && tail[0] == '\n' {
        assert tail[1..] == text[2..];
        NormaliserMeetsStandard(text[2..]);
      } else {
        assert text[0] == '\r' && tail != "" ==> Normalise(true, tail) == Normalise(false, tail);
        NormaliserMeetsStandard(tail);
      }
    }
  }

  datatype End = LF | CR | CRLF

  datatype Line = Line(text: string, end: End)

  predicate Plain(s: string) {
    '\r' !in s && '\n' !in s
  }

  predicate PlainLines(lines: seq<Line>) {
    forall l | l in lines :: Plain(l.text)
  }

  function EndText(e: End): string {
    match e
    case LF => "\n"
    case CR => "\r"
    case CRLF => "\r\n"
  }

  function Write(lines: seq<Line>, last: string): string {
    if lines == [] then last else lines[0].text + EndText(lines[0].end) + Write(lines[1..], last)
  }

  /** The same lines, every one of them ended in the same way. */
  function Ended(lines: seq<Line>, e: End): seq<Line> {
    if lines == [] then [] else [lines[0].(end := e)] + Ended(lines[1..], e)
  }

  /** A CR directly followed by the LF of an empty line cannot be told from one CRLF. */
  predicate Clash(afterCR: bool, lines: seq<Line>)
    decreases |lines|
  {
    lines != [] &&
    ((afterCR && lines[0] == Line("", LF)) || Clash(lines[0].end.CR?, lines[1..]))
  }

  lemma {:induction false} PlainIsKept(previousCR: bool, s: string)
    requires Plain(s)
    ensures Normalise(previousCR, s) == s
    decreases |s|
  {
    if s != "" {
      PlainIsKept(false, s[1..]);
      assert s == [s[0]] + s[1..];
    }
  }

  lemma NormaliseEnd(previousCR: bool, e: End, rest: string, all: string)
    requires all == EndText(e) + rest
    ensures Normalise(previousCR, all) == (if previousCR && e == LF then "" else "\n") + Normalise(e.CR?, rest)
  {
    if e.CRLF? {
      assert all[1..] == "\n" + rest && all[1..][1..] == rest;
      assert Normalise(true, all[1..]) == "" + Normalise(false, rest);
    } else {
      assert all[1..] == rest;
    }
  }

  lemma NormaliseLine(previousCR: bool, l: Line, rest: string, tail: string, all: string)
    requires Plain(l.text) && tail == EndText(l.end) + rest && all == l.text + tail
    ensures Normalise(previousCR, all) ==
              (if previousCR && l == Line("", LF) then "" else l.text + "\n") + Normalise(l.end.CR?, rest)
  {
    NormaliseAppend(previousCR, l.text, tail, all);
    PlainIsKept(previousCR, l.text);
    var afterCR := EndsInCR(previousCR, l.text);
    assert afterCR <==> previousCR && l.text == "";
    NormaliseEnd(afterCR, l.end, rest, tail);
    var end, after := if afterCR && l.end == LF then "" else "\n", Normalise(l.end.CR?, rest);
    Regroup(l.text, end, after, end + after);
  }

  /**
   Lines may end in any mixture of the three ways: the normaliser reads them like the same
   lines ended by LF if and only if no CR meets the LF of an empty line; there it loses lines.
   */
  lemma {:induction false} MixedEnds(previousCR: bool, lines: seq<Line>, last: string)
    requires PlainLines(lines) && Plain(last)
    ensures Normalise(previousCR, Write(lines, last)) == Write(Ended(lines, LF), last) <==> !Clash(previousCR, lines)
    ensures Clash(previousCR, lines) ==>
              |Normalise(previousCR, Write(lines, last))| < |Write(Ended(lines, LF), last)|
    decreases |lines|
  {
    if lines == [] {
      if last != "" {
        PlainIsKept(previousCR, last);
      }
    } else {
      var l, rest := lines[0], Write(lines[1..], last);
      var tail := EndText(l.end) + rest;
      assert Write(lines, last) == l.text + tail;
      NormaliseLine(previousCR, l, rest, tail, Write(lines, last));
      MixedEnds(l.end.CR?, lines[1..], last);
      var want := Write(Ended(lines[1..], LF), last);
      assert Ended(lines, LF)[1..] == Ended(lines[1..], LF);
      assert Write(Ended(lines, LF), last) == l.text + "\n" + want;
    }
  }

  lemma {:induction false} UniformNeverClashes(lines: seq<Line>, e: End, afterCR: bool)
    requires afterCR ==> e == CR
    ensures !Clash(afterCR, Ended(lines, e))
    ensures Ended(Ended(lines, e), LF) == Ended(lines, LF)
    ensures PlainLines(lines) ==> PlainLines(Ended(lines, e))
    decreases |lines|
  {
    if lines != [] {
      UniformNeverClashes(lines[1..], e, e == CR);
      assert Ended(lines, e)[1..] == Ended(lines[1..], e);
      assert forall l :: l in lines[1..] ==> l in lines;
    }
  }

  /** Replacing LF by CR, or by CRLF, throughout a stream changes no event. */
  lemma UniformEnds(lines: seq<Line>, last: string, e: End)
    requires PlainLines(lines) && Plain(last)
    ensures Whole(Write(Ended(lines, e), last)) == Whole(Write(Ended(lines, LF), last))
  {
    UniformNeverClashes(lines, e, false);
    UniformNeverClashes(lines, LF, false);
    MixedEnds(false, Ended(lines, e), last);
    MixedEnds(false, Ended(lines, LF), last);
  }

  /** Every stream without a CR is such a list of lines. */
  lemma {:induction false} EveryStreamIsLines(text: string) returns (lines: seq<Line>, last: string)
    requires '\r' !in text
    ensures PlainLines(lines) && Plain(last) && Write(Ended(lines, LF), last) == text
    decreases |text|
  {
    FirstLineFeed(text);
    var at := IndexOf(text, "\n", 0);
    if at.None? {
      lines, last := [], text;
    } else {
      var i := at.value;
      var line, rest := text[..i], text[i + 1..];
      var more;
      more, last := EveryStreamIsLines(rest);
      lines := [Line(line, LF)] + more;
      assert lines[1..] == more;
      assert Ended(lines, LF) == [Line(line, LF)] + Ended(more, LF);
      assert Ended(lines, LF)[1..] == Ended(more, LF);
      assert text == line + "\n" + rest;
    }
  }

  // ----- the reader of lines -----

  /** The processing order of section 9.2.6: complete lines one by one, a blank line dispatching. */
  function ByLine(f: Fields, text: string): seq<Message>
    decreases |text|
  {
    match IndexOf(text, "\n", 0)
    case None => []
    case Some(0) => Dispatch(f) + ByLine(NOTHING, text[1..])
    case Some(i) => ByLine(FieldLine(f, text[..i]), text[i + 1..])
  }

  predicate NoFeed(s: string, end: nat)
    requires end <= |s|
  {
    forall k | 0 <= k < end :: s[k] != '\n'
  }

  lemma LineFeedIs(s: string, i: nat)
    requires i < |s| && s[i] == '\n' && NoFeed(s, i)
    ensures IndexOf(s, "\n", 0) == Some(i)
  {
    assert s[i..i + 1] == "\n";
    assert At(s, "\n", i);
    var k := IndexOf(s, "\n", 0).value;
    assert s[k..k + 1][0] == s[k];
  }

  lemma FirstLineFeed(s: string)
    ensures var at := IndexOf(s, "\n", 0);
            if at.None? then NoFeed(s, |s|) else s[at.value] == '\n' && NoFeed(s, at.value)
  {
    var at := IndexOf(s, "\n", 0);
    forall k | 0 <= k < |s| && s[k] == '\n' ensures at.Some? && at.value <= k {
      assert s[k..k + 1] == "\n";
      assert At(s, "\n", k);
    }
    if at.Some? { assert s[at.value..at.value + 1][0] == s[at.value]; }
  }

  predicate NoBlankLine(s: string) {
    forall i | 0 <= i < |s| - 1 && s[i] == '\n' :: s[i + 1] != '\n'
  }

  lemma NoBoundary(s: string, end: nat)
    requires end <= |s| && forall i: nat | i < end :: !At(s, "\n\n", i)
    ensures forall i: nat | i < end && i + 1 < |s| && s[i] == '\n' :: s[i + 1] != '\n'
  {
    forall i: nat | i < end && i + 1 < |s| && s[i] == '\n' ensures s[i + 1] != '\n' {
      var two := s[i..i + 2];
      assert two == [s[i], s[i + 1]];
      assert !At(s, "\n\n", i);
    }
  }

  /** Reading a line that ends at the first line feed. */
  lemma OneLine(f: Fields, line: string, rest: string, all: string)
    requires NoFeed(line, |line|) && all == line + "\n" + rest
    ensures ByLine(f, all) ==
              if line == "" then Dispatch(f) + ByLine(NOTHING, rest) else ByLine(FieldLine(f, line), rest)
  {
    assert all[..|line|] == line && all[|line| + 1..] == rest;
    LineFeedIs(all, |line|);
  }

  lemma BlankAtStart(f: Fields, rest: string, all: string)
    requires all == "" + "\n" + rest && f == NOTHING
    ensures ByLine(f, all) == ByLine(f, rest)
  {
    OneLine(f, "", rest, all);
    assert [] + ByLine(f, rest) == ByLine(f, rest);
  }

  /** One frame, its two line feeds included, is what reading its lines and a blank one makes of it. */
  lemma {:induction false} FrameByLine(f: Fields, frame: string, rest: string, all: string)
    requires all == frame + "\n\n" + rest && NoBlankLine(frame + "\n")
    requires frame == "" || frame[0] != '\n' || f == NOTHING
    ensures ByLine(f, all) == Dispatch(FieldLines(f, Split(frame))) + ByLine(NOTHING, rest)
    decreases |frame|
  {
    FirstLineFeed(frame);
    var at := IndexOf(frame, "\n", 0);
    if at.None? {
      var tail := "" + "\n" + rest;
      assert all == frame + "\n" + tail;
      OneLine(f, frame, tail, all);
      BlankAtStart(NOTHING, rest, tail);
      OneLine(FieldLine(f, frame), "", rest, tail);
      assert [frame][1..] == [];
    } else {
      var i := at.value;
      var line, more := frame[..i], frame[i + 1..];
      var all' := more + "\n\n" + rest;
      assert frame == line + "\n" + more;
      assert all == line + "\n" + all';
      MoreLines(frame, i);
      OneLine(f, line, all', all);
      if i == 0 { BlankAtStart(f, all', all); }
      FrameByLine(FieldLine(f, line), more, rest, all');
      assert ([line] + Split(more))[1..] == Split(more);
    }
  }

  lemma MoreLines(frame: string, i: nat)
    requires i < |frame| && frame[i] == '\n' && NoBlankLine(frame + "\n")
    ensures NoBlankLine(frame[i + 1..] + "\n") && frame[i + 1..] != "" && frame[i + 1] != '\n'
  {
    var padded := frame + "\n";
    assert padded[i] == '\n' && padded[i + 1..] == frame[i + 1..] + "\n";
    assert padded[i + 1] != '\n';
    assert frame[i + 1] == padded[i + 1];
  }

  lemma {:induction false} NoFrameByLine(f: Fields, text: string)
    requires NoBlankLine(text) && (text == "" || text[0] != '\n' || f == NOTHING)
    ensures ByLine(f, text) == []
    decreases |text|
  {
    FirstLineFeed(text);
    var at := IndexOf(text, "\n", 0);
    if at.Some? {
      var i := at.value;
      var line, more := text[..i], text[i + 1..];
      assert i == 0 ==> line == "";
      NoFrameByLine(FieldLine(f, line), more);
    }
  }

  /** Cutting the buffer at blank lines and then reading each frame is reading line by line. */
  lemma {:induction false} DrainIsByLine(buffer: string)
    ensures Drain(buffer).events == ByLine(NOTHING, buffer)
    decreases |buffer|
  {
    var at := IndexOf(buffer, "\n\n", 0);
    if at.None? {
      NoBoundary(buffer, |buffer|);
      NoFrameByLine(NOTHING, buffer);
    } else {
      var i := at.value;
      NoBoundary(buffer, i);
      var frame, rest := buffer[..i], buffer[i + 2..];
      assert buffer[i..i + 2] == "\n\n";
      assert buffer == frame + "\n\n" + rest;
      assert frame + "\n" == buffer[..i + 1];
      FrameByLine(NOTHING, frame, rest, buffer);
      DrainIsByLine(rest);
      var later := Cut(buffer, i, frame, rest, Drain(buffer));
    }
  }

  /** The whole reader, buffer and frames included, reads line by line. */
  lemma ReaderIsByLine(text: string)
    ensures Whole(text).events == ByLine(NOTHING, LineFeeds(text))
  {
    NormaliserMeetsStandard(text);
    DrainIsByLine(Normalise(false, text));
  }

  // ----- the fields as the standard reads them -----

  /** The field name of a line: up to the first colon, or the whole line. */
  function FieldName(line: string): string {
    match IndexOf(line, ":", 0) case None => line case Some(i) => line[..i]
  }

  /** The field value of a line: behind the first colon, without one leading space. */
  function FieldValue(line: string): string {
    match IndexOf(line, ":", 0)
    case None => ""
    case Some(i) => if i + 1 < |line| && line[i + 1] == ' ' then line[i + 2..] else line[i + 1..]
  }

  /** Section 9.2.6: one line that is not blank. A comment is a line whose field name is empty. */
  function StandardLine(f: Fields, line: string): Fields {
    if FieldName(line) == "event" then f.(name := FieldValue(line))
    else if FieldName(line) == "data" then f.(data := f.data + [FieldValue(line)])
    else f
  }

  /** An empty event name stands for `message`. */
  function StandardDispatch(f: Fields): seq<Message> {
    Dispatch(if f.name == "" then f.(name := "message") else f)
  }

  function Standard(f: Fields, text: string): seq<Message>
    decreases |text|
  {
    match IndexOf(text, "\n", 0)
    case None => []
    case Some(0) => StandardDispatch(f) + Standard(NOTHING, text[1..])
    case Some(i) => Standard(StandardLine(f, text[..i]), text[i + 1..])
  }

  /** A data or event line has its colon, no white space around the value but one space, and a name to set. */
  predicate Faithful(line: string) {
    FieldName(line) in {"event", "data"} ==>
      IndexOf(line, ":", 0).Some? && Trim(FieldValue(line)) == FieldValue(line) &&
      (FieldName(line) == "event" ==> FieldValue(line) != "")
  }

  lemma Named(line: string, name: string)
    requires ':' !in name
    ensures StartsWith(line, name + ":") <==> FieldName(line) == name && IndexOf(line, ":", 0).Some?
  {
    var at, head := IndexOf(line, ":", 0), name + ":";
    assert |head| == |name| + 1 && head[|name|] == ':';
    if StartsWith(line, head) {
      assert line[|name|..|name| + 1] == ":";
      assert At(line, ":", |name|);
      assert line[at.value..at.value + 1][0] == line[at.value];
      assert line[..|name|] == name;
      assert forall k | 0 <= k < |name| :: line[k] == name[k] && name[k] in name;
    }
    if FieldName(line) == name && at.Some? {
      assert line[at.value..at.value + 1][0] == ':';
      assert line[..|name| + 1] == head;
    }
  }

  /** One leading space goes with any other white space. */
  lemma SpaceTrim(raw: string, rest: string)
    requires raw != "" && raw[0] == ' ' && rest == raw[1..]
    ensures Trim(raw) == Trim(rest)
  {
  }

  lemma ValueTrim(line: string, name: string, raw: string, value: string)
    requires StartsWith(line, name + ":") && ':' !in name && raw == line[|name| + 1..] && value == FieldValue(line)
    ensures Trim(raw) == Trim(value)
  {
    hide Trim, IndexOf;
    Named(line, name);
    if raw != "" && raw[0] == ' ' {
      SpaceTrim(raw, value);
    }
  }

  /** The code's reading in the same terms: no field without a colon, and values trimmed. */
  function CodedLine(f: Fields, line: string): Fields {
    if IndexOf(line, ":", 0).None? then f
    else if FieldName(line) == "event" then f.(name := Trim(FieldValue(line)))
    else if FieldName(line) == "data" then f.(data := f.data + [Trim(FieldValue(line))])
    else f
  }

  lemma {:induction false} CodeLine(f: Fields, line: string)
    ensures FieldLine(f, line) == CodedLine(f, line)
  {
    Named(line, "");
    Named(line, "event");
    Named(line, "data");
    assert "" + ":" == ":" && "event" + ":" == "event:" && "data" + ":" == "data:";
    if StartsWith(line, "event:") { ValueTrim(line, "event", line[6..], FieldValue(line)); }
    if StartsWith(line, "data:") { ValueTrim(line, "data", line[5..], FieldValue(line)); }
  }

  /** The code reads a line as the standard does, whatever was read before, if and only if the line is faithful. */
  lemma FaithfulLine(line: string)
    ensures Faithful(line) <==>
              forall f: Fields | f.name != "" :: Dispatch(FieldLine(f, line)) == StandardDispatch(StandardLine(f, line))
  {
    forall f: Fields | f.name != "" && Faithful(line)
      ensures Dispatch(FieldLine(f, line)) == StandardDispatch(StandardLine(f, line))
    {
      SameLine(f, line);
    }
    if !Faithful(line) {
      var f := UnfaithfulLine(line);
      assert f.name != "";
    }
  }

  lemma UnfaithfulLine(line: string) returns (f: Fields)
    requires !Faithful(line)
    ensures f.name != "" && Dispatch(FieldLine(f, line)) != StandardDispatch(StandardLine(f, line))
  {
    f := if FieldName(line) == "event" then Fields("a", ["x"]) else NOTHING;
    CodeLine(f, line);
    if FieldName(line) == "event" { UnfaithfulEvent(f, line); } else { UnfaithfulData(line); }
  }

  lemma UnfaithfulEvent(f: Fields, line: string)
    requires f == Fields("a", ["x"]) && FieldName(line) == "event" && !Faithful(line)
    ensures Dispatch(CodedLine(f, line)) != StandardDispatch(StandardLine(f, line))
  {
    var c, d := CodedLine(f, line), StandardLine(f, line);
    assert c.data == d.data == ["x"];
    assert d.name == FieldValue(line) && (c.name == Trim(FieldValue(line)) || (c.name == "a" && d.name == ""));
    assert Trim("") == "";
  }

  lemma UnfaithfulData(line: string)
    requires FieldName(line) == "data" && !Faithful(line)
    ensures Dispatch(CodedLine(NOTHING, line)) != StandardDispatch(StandardLine(NOTHING, line))
  {
    OneDatum(Trim(FieldValue(line)));
    OneDatum(FieldValue(line));
  }

  lemma OneDatum(a: string)
    ensures NOTHING.data + [a] == [a] && Join([a]) == a
  {
  }

  lemma SameLine(f: Fields, line: string)
    requires Faithful(line) && f.name != ""
    ensures FieldLine(f, line) == StandardLine(f, line) && FieldLine(f, line).name != ""
  {
    CodeLine(f, line);
  }

  lemma TrimTrailing(c: char)
    requires !IsSpace(c)
    ensures Trim([c, ' ']) == [c]
  {
    assert TrimStart([c, ' ']) == [c, ' '];
    assert [c, ' '][..1] == [c];
    assert TrimEnd([c]) == [c];
  }

  lemma DataValue(line: string, value: string)
    requires line == "data:" + value && value != "" && value[0] != ' '
    ensures FieldName(line) == "data" && IndexOf(line, ":", 0).Some? && FieldValue(line) == value && !StartsWith(line, ":")
  {
    assert "data" + ":" == "data:";
    Named(line, "data");
    StartsDifferently(line, ":");
    assert line[5..] == value;
  }

  /** A data line with white space left at its end: the standard keeps it, the code does not. */
  lemma {:induction false} TrailingSpaceIsLost(line: string)
    requires line == "data:" + ['x', ' ']
    ensures !Faithful(line)
    ensures FieldLine(NOTHING, line).data == [['x']] && StandardLine(NOTHING, line).data == [['x', ' ']]
  {
    DataValue(line, ['x', ' ']);
    TrimTrailing('x');
    CodeLine(NOTHING, line);
    assert |['x', ' ']| != |['x']|;
    assert [] + [['x']] == [['x']] && [] + [['x', ' ']] == [['x', ' ']];
  }

  // ----- when a whole stream is read as the standard reads it -----

  /** The lines of every complete frame: what stands before each blank line, `lines` already read. */
  function Frames(lines: seq<string>, text: string): seq<seq<string>>
    decreases |text|
  {
    match IndexOf(text, "\n", 0)
    case None => []
    case Some(0) => [lines] + Frames([], text[1..])
    case Some(i) => Frames(lines + [text[..i]], text[i + 1..])
  }

  function StandardLines(f: Fields, lines: seq<string>): Fields {
    if lines == [] then f else StandardLine(StandardLines(f, lines[..|lines| - 1]), lines[|lines| - 1])
  }

  /** The event name and data the code has after these lines of a frame. */
  function CodeLines(lines: seq<string>): Fields {
    if lines == [] then NOTHING else CodedLine(CodeLines(lines[..|lines| - 1]), lines[|lines| - 1])
  }

  function CodeFrames(frames: seq<seq<string>>): seq<Message> {
    if frames == [] then [] else Dispatch(CodeLines(frames[0])) + CodeFrames(frames[1..])
  }

  function StandardFrames(frames: seq<seq<string>>): seq<Message> {
    if frames == [] then [] else StandardDispatch(StandardLines(NOTHING, frames[0])) + StandardFrames(frames[1..])
  }

  lemma LastLine(lines: seq<string>, line: string)
    ensures CodeLines(lines + [line]) == CodedLine(CodeLines(lines), line)
    ensures StandardLines(NOTHING, lines + [line]) == StandardLine(StandardLines(NOTHING, lines), line)
  {
    assert (lines + [line])[..|lines|] == lines;
  }

  lemma FirstFrame(lines: seq<string>, rest: seq<seq<string>>)
    ensures CodeFrames([lines] + rest) == Dispatch(CodeLines(lines)) + CodeFrames(rest)
    ensures StandardFrames([lines] + rest) == StandardDispatch(StandardLines(NOTHING, lines)) + StandardFrames(rest)
  {
    assert ([lines] + rest)[1..] == rest;
  }

  lemma {:induction false} ByFrames(lines: seq<string>, text: string)
    ensures ByLine(CodeLines(lines), text) == CodeFrames(Frames(lines, text))
    ensures Standard(StandardLines(NOTHING, lines), text) == StandardFrames(Frames(lines, text))
    decreases |text|
  {
    var at := IndexOf(text, "\n", 0);
    if at.Some? {
      if at.value == 0 {
        ByFrames([], text[1..]);
        FirstFrame(lines, Frames([], text[1..]));
      } else {
        var line := text[..at.value];
        LastLine(lines, line);
        CodeLine(CodeLines(lines), line);
        ByFrames(lines + [line], text[at.value + 1..]);
      }
    }
  }

  /** The frame has data lines, all faithful, or none at all. */
  predicate DataFaithful(lines: seq<string>) {
    forall l | l in lines && FieldName(l) == "data" :: Faithful(l)
  }

  predicate HasData(lines: seq<string>) {
    exists l | l in lines :: FieldName(l) == "data"
  }

  /** The last event line is faithful, or has no colon and comes while the name is `message`. */
  predicate NameFaithful(lines: seq<string>) {
    lines == [] ||
    (var front, last := lines[..|lines| - 1], lines[|lines| - 1];
     if FieldName(last) != "event" then NameFaithful(front)
     else if IndexOf(last, ":", 0).None? then CodeLines(front).name == "message"
     else Faithful(last))
  }

  predicate FaithfulFrame(lines: seq<string>) {
    DataFaithful(lines) && (HasData(lines) ==> NameFaithful(lines))
  }

  predicate OnOneLine(lines: seq<string>) {
    forall l | l in lines :: '\n' !in l
  }

  lemma {:induction false} FramesOnOneLine(lines: seq<string>, text: string)
    requires OnOneLine(lines)
    ensures forall f | f in Frames(lines, text) :: OnOneLine(f)
    decreases |text|
  {
    FirstLineFeed(text);
    var at := IndexOf(text, "\n", 0);
    if at.Some? {
      if at.value == 0 {
        FramesOnOneLine([], text[1..]);
      } else {
        FramesOnOneLine(lines + [text[..at.value]], text[at.value + 1..]);
      }
    }
  }

  lemma TrimWithin(s: string)
    ensures forall c | c in Trim(s) :: c in s
  {
    var t := TrimStart(s);
    TrimStartIs(s);
    TrimEndIs(t);
    assert forall c | c in t :: c in s[|s| - |t|..];
  }

  /** One line's part in the data of both readings: the standard adds `v`, the code adds `w` if there is a colon. */
  lemma DataStep(f: Fields, g: Fields, line: string) returns (v: string, w: string, colon: bool)
    requires '\n' !in line
    ensures '\n' !in v && '\n' !in w
    ensures FieldName(line) == "data" ==>
              StandardLine(g, line).data == g.data + [v] && (Faithful(line) <==> colon && v == w) &&
              CodedLine(f, line).data == if colon then f.data + [w] else f.data
    ensures FieldName(line) != "data" ==> StandardLine(g, line).data == g.data && CodedLine(f, line).data == f.data
  {
    v, w, colon := FieldValue(line), Trim(FieldValue(line)), IndexOf(line, ":", 0).Some?;
    ValueWithin(line);
    TrimWithin(v);
  }

  lemma ValueWithin(line: string)
    ensures forall c | c in FieldValue(line) :: c in line
  {
    var at := IndexOf(line, ":", 0);
    if at.Some? {
      assert forall c | c in line[at.value + 1..] :: c in line;
      assert at.value + 1 < |line| ==> forall c | c in line[at.value + 2..] :: c in line;
    }
  }

  lemma SameAppend(a: seq<string>, b: seq<string>, x: string, y: string)
    ensures a + [x] == b + [y] <==> a == b && x == y
  {
    if a + [x] == b + [y] {
      assert (a + [x])[..|a|] == a && (b + [y])[..|b|] == b;
      assert (a + [x])[|a|] == x && (b + [y])[|b|] == y;
    }
  }

  lemma MoreData(lines: seq<string>, front: seq<string>, last: string)
    requires lines == front + [last]
    ensures OnOneLine(lines) <==> OnOneLine(front) && '\n' !in last
    ensures HasData(lines) <==> HasData(front) || FieldName(last) == "data"
    ensures DataFaithful(lines) <==> DataFaithful(front) && (FieldName(last) == "data" ==> Faithful(last))
  {
    assert last in lines && forall l | l in front :: l in lines;
  }

  /** The data lists of the two readings: the code's is never longer. */
  ghost predicate DataAgree(c: seq<string>, d: seq<string>, lines: seq<string>) {
    |c| <= |d| && (c == d <==> DataFaithful(lines)) && (d != [] <==> HasData(lines)) && OnOneLine(c) && OnOneLine(d)
  }

  /** The code adds `w` where the standard adds `v`, or nothing at all. */
  lemma DataLine(c: seq<string>, d: seq<string>, v: string, w: string, colon: bool)
    requires |c| <= |d|
    ensures var c' := if colon then c + [w] else c;
            |c'| <= |d + [v]| && (c' == d + [v] <==> c == d && colon && v == w)
  {
    SameAppend(c, d, w, v);
  }

  lemma DataNext(f: Fields, g: Fields, front: seq<string>, last: string, lines: seq<string>)
    requires lines == front + [last] && '\n' !in last && DataAgree(f.data, g.data, front)
    ensures DataAgree(CodedLine(f, last).data, StandardLine(g, last).data, lines)
  {
    var v, w, colon := DataStep(f, g, last);
    MoreData(lines, front, last);
    DataLine(f.data, g.data, v, w, colon);
  }

  lemma {:induction false} DataPart(lines: seq<string>)
    requires OnOneLine(lines)
    ensures DataAgree(CodeLines(lines).data, StandardLines(NOTHING, lines).data, lines)
    decreases |lines|
  {
    if lines != [] {
      var front, last := lines[..|lines| - 1], lines[|lines| - 1];
      MoreData(lines, front, last);
      DataPart(front);
      DataNext(CodeLines(front), StandardLines(NOTHING, front), front, last, lines);
    }
  }

  lemma {:induction false} NamePart(lines: seq<string>)
    ensures var c, n := CodeLines(lines).name, StandardLines(NOTHING, lines).name;
            c == (if n == "" then "message" else n) <==> NameFaithful(lines)
    decreases |lines|
  {
    if lines != [] {
      var front, last := lines[..|lines| - 1], lines[|lines| - 1];
      NamePart(front);
    }
  }

  lemma FirstBreak(a: string, b: string, x: string, y: string)
    requires '\n' !in a && '\n' !in b && a + "\n" + x == b + "\n" + y
    ensures a == b && x == y
  {
    var s := a + "\n" + x;
    assert s[|a|] == '\n' && s[|b|] == '\n';
    assert forall k | 0 <= k < |b| :: s[k] == b[k] && b[k] in b;
    assert forall k | 0 <= k < |a| :: s[k] == a[k] && a[k] in a;
    assert s[..|a|] == a && s[..|b|] == b;
    assert s[|a| + 1..] == x && s[|b| + 1..] == y;
  }

  lemma {:induction false} JoinInjective(a: seq<string>, b: seq<string>)
    requires a != [] && b != [] && OnOneLine(a) && OnOneLine(b) && Join(a) == Join(b)
    ensures a == b
    decreases |a|
  {
    assert a == [a[0]] + a[1..] && b == [b[0]] + b[1..];
    if |a| > 1 && |b| > 1 {
      FirstBreak(a[0], b[0], Join(a[1..]), Join(b[1..]));
      JoinInjective(a[1..], b[1..]);
    } else {
      assert |a| > 1 ==> '\n' in Join(a);
      assert |b| > 1 ==> '\n' in Join(b);
    }
  }

  /** The code reads a frame as the standard does if and only if the frame is faithful; it never emits more. */
  lemma {:induction false} FaithfulFrameOnly(lines: seq<string>)
    requires OnOneLine(lines)
    ensures var c, d := Dispatch(CodeLines(lines)), StandardDispatch(StandardLines(NOTHING, lines));
            |c| <= |d| <= 1 && (c == d <==> FaithfulFrame(lines))
  {
    DataPart(lines);
    NamePart(lines);
    var c, d := CodeLines(lines).data, StandardLines(NOTHING, lines).data;
    if c != [] && Join(c) == Join(d) { JoinInjective(c, d); }
  }

  lemma {:induction false} FaithfulFramesOnly(frames: seq<seq<string>>)
    requires forall f | f in frames :: OnOneLine(f)
    ensures |CodeFrames(frames)| <= |StandardFrames(frames)|
    ensures CodeFrames(frames) == StandardFrames(frames) <==> forall f | f in frames :: FaithfulFrame(f)
    decreases |frames|
  {
    if frames != [] {
      var first, rest := frames[0], frames[1..];
      assert frames == [first] + rest && first in frames;
      FaithfulFrameOnly(first);
      FaithfulFramesOnly(rest);
      SplitEqual(Dispatch(CodeLines(first)), StandardDispatch(StandardLines(NOTHING, first)), CodeFrames(rest), StandardFrames(rest));
    }
  }

  lemma SplitEqual(a: seq<Message>, b: seq<Message>, x: seq<Message>, y: seq<Message>)
    requires |a| <= |b| && |x| <= |y|
    ensures a + x == b + y <==> a == b && x == y
  {
    if a + x == b + y {
      assert |a| == |b| && |x| == |y|;
      assert (a + x)[..|a|] == a && (b + y)[..|a|] == b;
      assert (a + x)[|a|..] == x && (b + y)[|a|..] == y;
    }
  }

  // ----- the buffers of the standard -----

  /** The event type buffer and the data buffer of section 9.2.6, both strings. */
  datatype Buffers = Buffers(eventType: string, data: string)

  const BLANK := Buffers("", "")

  /** A data field appends its value and a line feed. */
  function ProcessLine(b: Buffers, line: string): Buffers {
    if FieldName(line) == "event" then b.(eventType := FieldValue(line))
    else if FieldName(line) == "data" then b.(data := b.data + FieldValue(line) + "\n")
    else b
  }

  /** Nothing for an empty data buffer; else its content without the last line feed, as a `message` unless typed. */
  function DispatchBuffers(b: Buffers): seq<Message> {
    if b.data == "" then []
    else
      var data := if b.data[|b.data| - 1] == '\n' then b.data[..|b.data| - 1] else b.data;
      [Message(if b.eventType == "" then "message" else b.eventType, data)]
  }

  /** Section 9.2.6 on a text whose lines end in line feeds; what stands behind the last one is discarded. */
  function Specified(b: Buffers, text: string): seq<Message>
    decreases |text|
  {
    match IndexOf(text, "\n", 0)
    case None => []
    case Some(0) => DispatchBuffers(b) + Specified(BLANK, text[1..])
    case Some(i) => Specified(ProcessLine(b, text[..i]), text[i + 1..])
  }

  /** A list of data lines and a name stand for the two buffers. */
  predicate Stands(f: Fields, b: Buffers) {
    && b.data == (if f.data == [] then "" else Join(f.data) + "\n")
    && (if b.eventType == "" then "message" else b.eventType) == (if f.name == "" then "message" else f.name)
  }

  lemma {:induction false} JoinAppend(lines: seq<string>, last: string)
    ensures Join(lines + [last]) == if lines == [] then last else Join(lines) + "\n" + last
  {
    if lines == [] {
      assert lines + [last] == [last];
    } else {
      var rest := lines[1..];
      assert (lines + [last])[1..] == rest + [last];
      JoinAppend(rest, last);
      if rest != [] {
        assert lines[0] + "\n" + (Join(rest) + "\n" + last) == (lines[0] + "\n" + Join(rest)) + "\n" + last;
      }
    }
  }

  lemma LineStands(f: Fields, b: Buffers, line: string)
    requires Stands(f, b)
    ensures Stands(StandardLine(f, line), ProcessLine(b, line))
  {
    hide FieldName, FieldValue;
    var v := FieldValue(line);
    JoinAppend(f.data, v);
    assert f.data == [] ==> "" + v + "\n" == v + "\n";
    assert f.data != [] ==> (Join(f.data) + "\n") + v + "\n" == (Join(f.data) + "\n" + v) + "\n";
  }

  lemma DispatchStands(f: Fields, b: Buffers)
    requires Stands(f, b)
    ensures StandardDispatch(f) == DispatchBuffers(b)
  {
    if f.data != [] { assert b.data[..|b.data| - 1] == Join(f.data); }
  }

  /** Gathering data lines in a list and joining them is what the standard's buffers do. */
  lemma {:induction false} StandardIsSpecified(f: Fields, b: Buffers, text: string)
    requires Stands(f, b)
    ensures Standard(f, text) == Specified(b, text)
    decreases |text|
  {
    hide StandardLine, ProcessLine, Stands, StandardDispatch, DispatchBuffers;
    var at := IndexOf(text, "\n", 0);
    if at.Some? {
      if at.value == 0 {
        DispatchStands(f, b);
        NothingIsBlank();
        StandardIsSpecified(NOTHING, BLANK, text[1..]);
      } else {
        var line := text[..at.value];
        LineStands(f, b, line);
        StandardIsSpecified(StandardLine(f, line), ProcessLine(b, line), text[at.value + 1..]);
      }
    }
  }

  lemma NothingIsBlank()
    ensures Stands(NOTHING, BLANK)
  {
  }

  predicate AllSpace(s: string) {
    forall i | 0 <= i < |s| :: IsSpace(s[i])
  }

  /** The part from `i` to `j` with white space on both sides of it and none at its ends. */
  predicate TrimmedAt(s: string, t: string, i: nat, j: nat) {
    && i <= j <= |s| && t == s[i..j] && AllSpace(s[..i]) && AllSpace(s[j..])
    && (t != "" ==> !IsSpace(t[0]) && !IsSpace(t[|t| - 1]))
  }

  lemma TrimFound(s: string) returns (i: nat, j: nat)
    ensures TrimmedAt(s, Trim(s), i, j)
  {
    var mid := TrimStart(s);
    var t := TrimEnd(mid);
    TrimStartIs(s);
    TrimEndIs(mid);
    i := |s| - |mid|;
    j := i + |t|;
    assert s[i..j] == mid[..|t|] && s[j..] == mid[|t|..];
    assert t != "" ==> t[0] == mid[0];
  }

  lemma SpaceAround(s: string, t: string, i: nat, j: nat)
    requires TrimmedAt(s, t, i, j)
    ensures i <= j <= |s| && t == s[i..j]
    ensures forall k | 0 <= k < i || j <= k < |s| :: IsSpace(s[k])
    ensures i < j ==> !IsSpace(s[i]) && !IsSpace(s[j - 1])
  {
    hide IsSpace;
    forall k | 0 <= k < i ensures IsSpace(s[k]) { assert s[..i][k] == s[k]; }
    forall k | j <= k < |s| ensures IsSpace(s[k]) { assert s[j..][k - j] == s[k]; }
    if i < j { assert t[0] == s[i] && t[|t| - 1] == s[j - 1]; }
  }

  lemma TrimmedOnce(s: string, t: string, i: nat, j: nat, t': string, i': nat, j': nat)
    requires TrimmedAt(s, t, i, j) && TrimmedAt(s, t', i', j')
    ensures t == t'
  {
    hide IsSpace, TrimmedAt;
    SpaceAround(s, t, i, j);
    SpaceAround(s, t', i', j');
    assert i < j && i' < j' ==> i == i' && j == j';
    assert i < j ==> !(i < i' || j' <= i);
    assert i' < j' ==> !(i' < i || j <= i');
  }

  /** Trimming takes all white space off both ends, and nothing else. */
  lemma TrimIs(s: string, t: string)
    ensures Trim(s) == t <==> exists i, j :: TrimmedAt(s, t, i, j)
  {
    var i, j := TrimFound(s);
    if i', j' :| TrimmedAt(s, t, i', j') { TrimmedOnce(s, Trim(s), i, j, t, i', j'); }
  }

  /** The reader emits what sections 9.2.5 and 9.2.6 of the standard do if and only if every complete frame is faithful. */
  lemma {:induction false} ReaderMeetsStandard(text: string)
    ensures Whole(text).events == Specified(BLANK, LineFeeds(text)) <==>
              forall f | f in Frames([], LineFeeds(text)) :: FaithfulFrame(f)
  {
    var t := LineFeeds(text);
    ReaderIsByLine(text);
    ByFrames([], t);
    FramesOnOneLine([], t);
    FaithfulFramesOnly(Frames([], t));
    NothingIsBlank();
    StandardIsSpecified(NOTHING, BLANK, t);
  }

  // ----- what arrives of a written event -----

  datatype Written = Written(name: string, data: seq<string>)

  function DataLines(lines: seq<string>): string {
    if lines == [] then "\n" else "data: " + lines[0] + "\n" + DataLines(lines[1..])
  }

  function WriteEvents(events: seq<Written>): string {
    if events == [] then ""
    else "event: " + events[0].name + "\n" + DataLines(events[0].data) + WriteEvents(events[1..])
  }

  function Trimmed(lines: seq<string>): seq<string> {
    if lines == [] then [] else [Trim(lines[0])] + Trimmed(lines[1..])
  }

  function Arrive(events: seq<Written>): seq<Message> {
    if events == [] then []
    else Dispatch(Fields(Trim(events[0].name), Trimmed(events[0].data))) + Arrive(events[1..])
  }

  predicate PlainEvents(events: seq<Written>) {
    forall e | e in events :: Plain(e.name) && forall l | l in e.data :: Plain(l)
  }

  /** The colon of `head` is followed by one space, which trimming removes with any other. */
  lemma NamedLine(head: string, value: string, line: string)
    requires Plain(head) && head != "" && Plain(value) && line == head + (" " + value)
    ensures NoFeed(line, |line|) && StartsWith(line, head) && line[0] == head[0]
    ensures Trim(line[|head|..]) == Trim(value)
  {
    hide Trim;
    var rest := " " + value;
    assert line[|head|..] == rest;
    assert rest[1..] == value;
    SpaceTrim(rest, value);
  }

  lemma StartsDifferently(line: string, prefix: string)
    requires line != "" && prefix != "" && line[0] != prefix[0]
    ensures !StartsWith(line, prefix)
  {
  }

  lemma DataField(f: Fields, data: string, line: string)
    requires Plain(data) && line == "data:" + (" " + data)
    ensures NoFeed(line, |line|) && line != "" && FieldLine(f, line) == f.(data := f.data + [Trim(data)])
  {
    NamedLine("data:", data, line);
    StartsDifferently(line, ":");
    StartsDifferently(line, "event:");
  }

  lemma NameField(f: Fields, name: string, line: string)
    requires Plain(name) && line == "event:" + (" " + name)
    ensures NoFeed(line, |line|) && line != "" && FieldLine(f, line) == f.(name := Trim(name))
  {
    NamedLine("event:", name, line);
    StartsDifferently(line, ":");
  }

  lemma {:induction false} DataArrives(f: Fields, lines: seq<string>, text: string, rest: string, all: string)
    requires text == DataLines(lines) && all == text + rest && forall l | l in lines :: Plain(l)
    ensures ByLine(f, all) == Dispatch(f.(data := f.data + Trimmed(lines))) + ByLine(NOTHING, rest)
    decreases |lines|
  {
    hide ByLine, FieldLine, Trim;
    if lines == [] {
      assert f.data + [] == f.data;
      OneLine(f, "", rest, all);
    } else {
      var first, more := lines[0], DataLines(lines[1..]);
      var tail, trimmed := more + rest, Trimmed(lines[1..]);
      var line := "data:" + (" " + first);
      assert all == line + "\n" + tail;
      DataField(f, first, line);
      OneLine(f, line, tail, all);
      var f' := f.(data := f.data + [Trim(first)]);
      DataArrives(f', lines[1..], more, rest, tail);
      Regroup(f.data, [Trim(first)], trimmed, [Trim(first)] + trimmed);
    }
  }

  lemma {:induction false} EventsArrive(events: seq<Written>, all: string)
    requires PlainEvents(events) && all == WriteEvents(events)
    ensures ByLine(NOTHING, all) == Arrive(events)
    decreases |events|
  {
    if events == [] {
      FirstLineFeed("");
    } else {
      hide ByLine, FieldLine, Trim;
      var e, rest := events[0], WriteEvents(events[1..]);
      var body := DataLines(e.data) + rest;
      var line := "event:" + (" " + e.name);
      assert all == line + "\n" + body;
      NameField(NOTHING, e.name, line);
      OneLine(NOTHING, line, body, all);
      var f := Fields(Trim(e.name), []);
      DataArrives(f, e.data, DataLines(e.data), rest, body);
      assert [] + Trimmed(e.data) == Trimmed(e.data);
      EventsArrive(events[1..], rest);
    }
  }

  lemma {:induction false} DataHasNoCR(lines: seq<string>)
    requires forall l | l in lines :: Plain(l)
    ensures '\r' !in DataLines(lines)
  {
    if lines != [] {
      DataHasNoCR(lines[1..]);
      assert Plain(lines[0]);
      assert '\r' !in "data: " + lines[0] + "\n";
    }
  }

  lemma {:induction false} EventsHaveNoCR(events: seq<Written>)
    requires PlainEvents(events)
    ensures '\r' !in WriteEvents(events)
  {
    if events != [] {
      DataHasNoCR(events[0].data);
      EventsHaveNoCR(events[1..]);
      assert '\r' !in "event: " + events[0].name + "\n";
    }
  }

  /** Every event written with data arrives, once, in order, and trimmed; one without data never does. */
  lemma WrittenEventsArrive(events: seq<Written>)
    requires PlainEvents(events)
    ensures Whole(WriteEvents(events)).events == Arrive(events)
  {
    var text := WriteEvents(events);
    EventsHaveNoCR(events);
    EventsArrive(events, text);
    FeedsAreKept(text);
    DrainIsByLine(text);
  }

  lemma {:induction false} FeedsAreKept(s: string)
    requires '\r' !in s
    ensures Normalise(false, s) == s
    decreases |s|
  {
    if s != "" {
      FeedsAreKept(s[1..]);
      assert s == [s[0]] + s[1..];
    }
  }
}
