/**
 The append-only streams of the protocol cache: ids issued from the clock, ids as text,
 and the two range queries that read ids back from text.
 */
module Streams {
  import opened Options
  import opened Text

  datatype Id = Id(ms: nat, seqNo: nat)

  predicate Less(a: Id, b: Id) {
    a.ms < b.ms || (a.ms == b.ms && a.seqNo < b.seqNo)
  }

  predicate AtMost(a: Id, b: Id) {
    a == b || Less(a, b)
  }

  predicate Fits(id: Id) {
    id.ms <= U64_MAX && id.seqNo <= U64_MAX
  }

  datatype StreamEntry = StreamEntry(id: Bytes, fields: seq<(Bytes, Bytes)>)

  // ----- ids -----

  /** The sequence number is a 64-bit counter and wraps. */
  function NextId(last: Id, now: nat): Id {
    if now > last.ms then Id(now, 0) else Id(last.ms, (last.seqNo + 1) % (U64_MAX + 1))
  }

  function Format(id: Id): Bytes {
    Decimal(id.ms) + [DASH] + Decimal(id.seqNo)
  }

  /** Position of the first dash, or the length. */
  function DashAt(s: Bytes): (i: nat)
    ensures i <= |s| && (i < |s| ==> s[i] == DASH)
    ensures forall j | 0 <= j < i :: s[j] != DASH
  {
    if s == [] || s[0] == DASH then 0 else 1 + DashAt(s[1..])
  }

  function ParseId(s: Bytes, defaultSeq: nat): Option<Id> {
    var i := DashAt(s);
    if i < |s| then
      match (ParseU64(s[..i]), ParseU64(s[i + 1..]))
      case (Some(ms), Some(n)) => Some(Id(ms, n))
      case _ => None
    else
      match ParseU64(s) case Some(ms) => Some(Id(ms, defaultSeq)) case None => None
  }

  /** Reading back a printed id is the identity, whatever the default sequence number. */
  lemma IdRoundTrip(id: Id, defaultSeq: nat)
    requires Fits(id)
    ensures ParseId(Format(id), defaultSeq) == Some(id)
  {
    var s, head := Format(id), Decimal(id.ms);
    assert forall j | 0 <= j < |head| :: IsDigit(head[j]) && s[j] == head[j];
    assert s[|head|] == DASH;
    var i := DashAt(s);
    assert s[..i] == head && s[i + 1..] == Decimal(id.seqNo);
    U64RoundTrip(id.ms);
    U64RoundTrip(id.seqNo);
  }

  lemma BareRoundTrip(ms: nat, defaultSeq: nat)
    requires ms <= U64_MAX
    ensures ParseId(Decimal(ms), defaultSeq) == Some(Id(ms, defaultSeq))
  {
    var s := Decimal(ms);
    assert forall j | 0 <= j < |s| :: IsDigit(s[j]);
    U64RoundTrip(ms);
  }

  /** The next id is above the last one unless the counter wraps within one millisecond. */
  lemma NextIdGrows(last: Id, now: nat)
    requires Fits(last)
    ensures Less(last, NextId(last, now)) <==> !(now <= last.ms && last.seqNo == U64_MAX)
  {
  }

  /** The ids issued for the given clock readings, starting from a fresh stream. */
  function Issue(last: Id, clock: seq<nat>): seq<Id>
    decreases |clock|
  {
    if clock == [] then [] else [NextId(last, clock[0])] + Issue(NextId(last, clock[0]), clock[1..])
  }

  ghost predicate Increasing(ids: seq<Id>) {
    forall i, j | 0 <= i < j < |ids| :: Less(ids[i], ids[j])
  }

  /** Some step of the run adds to a full sequence number while the clock does not move on. */
  predicate Wraps(last: Id, clock: seq<nat>)
    decreases |clock|
  {
    clock != [] &&
    ((clock[0] <= last.ms && last.seqNo == U64_MAX) || Wraps(NextId(last, clock[0]), clock[1..]))
  }

  predicate Readings(clock: seq<nat>) {
    forall now | now in clock :: now <= I64_MAX
  }

  /** Ids strictly increase however the clock stalls or jumps back, if and only if no sequence number wraps. */
  lemma {:induction false} IssuedIdsIncrease(last: Id, clock: seq<nat>)
    requires Fits(last) && Readings(clock)
    ensures Increasing([last] + Issue(last, clock)) <==> !Wraps(last, clock)
    decreases |clock|
  {
    if clock != [] {
      var next, rest := NextId(last, clock[0]), clock[1..];
      assert clock[0] in clock && forall now | now in rest :: now in clock;
      IssuedIdsIncrease(next, rest);
      NextIdGrows(last, clock[0]);
      IncreasingFrom(last, next, Issue(next, rest));
      assert [last] + Issue(last, clock) == [last] + ([next] + Issue(next, rest));
    }
  }

  lemma IncreasingFrom(last: Id, next: Id, ids: seq<Id>)
    ensures Increasing([last] + ([next] + ids)) <==> Less(last, next) && Increasing([next] + ids)
  {
    var tail := [next] + ids;
    var all := [last] + tail;
    assert all[0] == last && all[1] == next && tail[0] == next;
    if Less(last, next) && Increasing(tail) {
      forall i, j | 0 <= i < j < |all| ensures Less(all[i], all[j]) {
        assert i > 0 ==> all[i] == tail[i - 1];
        assert all[j] == tail[j - 1];
        if j > 1 { assert Less(tail[0], tail[j - 1]); }
      }
    }
    if Increasing(all) {
      forall i, j | 0 <= i < j < |tail| ensures Less(tail[i], tail[j]) {
        assert all[i + 1] == tail[i] && all[j + 1] == tail[j];
      }
    }
  }

  /** A run shorter than the range of sequence numbers never wraps. */
  lemma {:induction false} ShortRunsNeverWrap(last: Id, clock: seq<nat>)
    requires last.seqNo + |clock| <= U64_MAX
    ensures !Wraps(last, clock)
    decreases |clock|
  {
    if clock != [] { ShortRunsNeverWrap(NextId(last, clock[0]), clock[1..]); }
  }

  // ----- queries -----

  function Between(entries: seq<StreamEntry>, lo: Option<Id>, hi: Option<Id>): seq<StreamEntry> {
    if entries == [] then []
    else
      var id := ParseId(entries[0].id, 0);
      var keep := id.Some? && (lo.Some? ==> AtMost(lo.value, id.value)) && (hi.Some? ==> AtMost(id.value, hi.value));
      (if keep then [entries[0]] else []) + Between(entries[1..], lo, hi)
  }

  function Xrange(entries: seq<StreamEntry>, start: Bytes, end: Bytes): seq<StreamEntry> {
    var lo, hi := ParseId(start, 0), ParseId(end, U64_MAX);
    if (start != [DASH] && lo.None?) || (end != [PLUS] && hi.None?) then []
    else Between(entries, if start == [DASH] then None else lo, if end == [PLUS] then None else hi)
  }

  function Later(entries: seq<StreamEntry>, after: Id): seq<StreamEntry> {
    if entries == [] then []
    else
      var id := ParseId(entries[0].id, 0);
      (if id.Some? && Less(after, id.value) then [entries[0]] else []) + Later(entries[1..], after)
  }

  function Xread(entries: seq<StreamEntry>, after: Bytes): seq<StreamEntry> {
    match ParseId(after, 0) case Some(id) => Later(entries, id) case None => []
  }

  // ----- the stream as an object -----

  /** Entries carry printed ids, in strictly increasing order, none above `last`. */
  ghost predicate WellOrdered(entries: seq<StreamEntry>, last: Id) {
    && Fits(last)
    && (forall e | e in entries :: var id := ParseId(e.id, 0); id.Some? && AtMost(id.value, last))
    && forall i, j | 0 <= i < j < |entries| :: Less(IdOf(entries[i]), IdOf(entries[j]))
  }

  function IdOf(e: StreamEntry): Id {
    match ParseId(e.id, 0) case Some(id) => id case None => Id(0, 0)
  }

  lemma AppendOrdered(entries: seq<StreamEntry>, last: Id, next: Id, e: StreamEntry)
    requires WellOrdered(entries, last) && Less(last, next) && Fits(next)
    requires ParseId(e.id, 0) == Some(next)
    ensures WellOrdered(entries + [e], next)
  {
    var all := entries + [e];
    forall i, j | 0 <= i < j < |all| ensures Less(IdOf(all[i]), IdOf(all[j])) {
      if j == |entries| { assert entries[i] in entries; }
    }
  }

  class StreamState {
    var entries: seq<StreamEntry>
    var last: Id

    ghost predicate Valid()
      reads this
    {
      WellOrdered(entries, last)
    }

    constructor ()
      ensures Valid() && entries == [] && last == Id(0, 0)
    {
      entries := [];
      last := Id(0, 0);
    }

    /** `now` is the clock reading, which may stall or go backwards. */
    method Add(now: nat, fields: seq<(Bytes, Bytes)>) returns (id: Bytes)
      requires Valid() && now <= I64_MAX
      modifies this
      ensures last == NextId(old(last), now) && id == Format(last)
      ensures entries == old(entries) + [StreamEntry(id, fields)]
      ensures Valid() || (now <= old(last.ms) && old(last.seqNo) == U64_MAX)
    {
      ghost var was := last;
      if now > last.ms {
        last := Id(now, 0);
      } else {
        last := Id(last.ms, (last.seqNo + 1) % (U64_MAX + 1));
      }
      id := Format(last);
      var e := StreamEntry(id, fields);
      IdRoundTrip(last, 0);
      NextIdGrows(was, now);
      if Less(was, last) { AppendOrdered(entries, was, last, e); }
      entries := entries + [e];
    }
  }

  // ----- nothing lost, nothing repeated -----

  lemma TailOrdered(entries: seq<StreamEntry>, last: Id)
    requires entries != [] && WellOrdered(entries, last)
    ensures WellOrdered(entries[1..], last)
    ensures ParseId(entries[0].id, 0) == Some(IdOf(entries[0]))
    ensures forall e | e in entries[1..] :: Less(IdOf(entries[0]), IdOf(e))
  {
    assert entries[0] in entries && forall e | e in entries[1..] :: e in entries;
    forall e | e in entries[1..] ensures Less(IdOf(entries[0]), IdOf(e)) {
      var i :| 0 <= i < |entries[1..]| && entries[1..][i] == e;
      assert entries[i + 1] == e;
    }
  }

  lemma {:induction false} AllLater(entries: seq<StreamEntry>, last: Id, x: Id)
    requires WellOrdered(entries, last) && forall e | e in entries :: Less(x, IdOf(e))
    ensures Between(entries, None, Some(x)) == [] && Later(entries, x) == entries
  {
    hide ParseId, Format;
    if entries != [] {
      TailOrdered(entries, last);
      assert entries[0] in entries && forall e | e in entries[1..] :: e in entries;
      AllLater(entries[1..], last, x);
    }
  }

  lemma HeadBelow(entries: seq<StreamEntry>, x: Id)
    requires entries != [] && ParseId(entries[0].id, 0).Some? && !Less(x, IdOf(entries[0]))
    ensures Between(entries, None, Some(x)) == [entries[0]] + Between(entries[1..], None, Some(x))
    ensures Later(entries, x) == Later(entries[1..], x)
  {
    assert [] + Later(entries[1..], x) == Later(entries[1..], x);
  }

  lemma Rejoin(entries: seq<StreamEntry>, lo: seq<StreamEntry>, hi: seq<StreamEntry>)
    requires entries != [] && lo + hi == entries[1..]
    ensures ([entries[0]] + lo) + hi == entries
  {
    assert ([entries[0]] + lo) + hi == [entries[0]] + (lo + hi);
  }

  lemma {:induction false} SplitExact(entries: seq<StreamEntry>, last: Id, x: Id)
    requires WellOrdered(entries, last)
    ensures Between(entries, None, Some(x)) + Later(entries, x) == entries
  {
    hide ParseId, Format;
    if entries != [] {
      TailOrdered(entries, last);
      if Less(x, IdOf(entries[0])) {
        forall e | e in entries ensures Less(x, IdOf(e)) {
          assert entries == [entries[0]] + entries[1..];
        }
        AllLater(entries, last, x);
      } else {
        HeadBelow(entries, x);
        SplitExact(entries[1..], last, x);
        Rejoin(entries, Between(entries[1..], None, Some(x)), Later(entries[1..], x));
      }
    }
  }

  /** Moving the lower bound down from `x` to `y` adds exactly the entries in between. */
  lemma {:induction false} LaterGrows(entries: seq<StreamEntry>, last: Id, x: Id, y: Id)
    requires WellOrdered(entries, last) && AtMost(y, x)
    ensures |Later(entries, x)| <= |Later(entries, y)|
    ensures if exists e | e in entries :: Less(y, IdOf(e)) && AtMost(IdOf(e), x)
            then |Later(entries, x)| < |Later(entries, y)|
            else Later(entries, x) == Later(entries, y)
  {
    if entries != [] {
      TailOrdered(entries, last);
      LaterGrows(entries[1..], last, x, y);
      assert forall e :: e in entries <==> e == entries[0] || e in entries[1..];
    }
  }

  /** Reading up to an id and then after it gives the whole stream, once. */
  lemma RangeThenRead(entries: seq<StreamEntry>, last: Id, id: Id)
    requires WellOrdered(entries, last) && Fits(id)
    ensures Xrange(entries, [DASH], Format(id)) + Xread(entries, Format(id)) == entries
  {
    IdRoundTrip(id, 0);
    IdRoundTrip(id, U64_MAX);
    FormatIsNotPlus(id);
    SplitExact(entries, last, id);
  }

  lemma FormatIsNotPlus(id: Id)
    ensures Format(id) != [PLUS] && Decimal(id.ms) != [PLUS]
  {
    assert |Format(id)| >= 3;
    assert Decimal(id.ms)[0] in Decimal(id.ms);
  }

  /**
   With a bare millisecond as the id the two reads overlap: the range ends after the last
   entry of that millisecond, the read starts after the first. They give the whole stream
   exactly when that millisecond has no entry past the first.
   */
  lemma BareRangeThenRead(entries: seq<StreamEntry>, last: Id, ms: nat)
    requires WellOrdered(entries, last) && ms <= U64_MAX
    ensures Xrange(entries, [DASH], Decimal(ms)) + Xread(entries, Decimal(ms)) == entries <==>
            !exists e | e in entries :: IdOf(e).ms == ms && IdOf(e).seqNo > 0
  {
    BareRoundTrip(ms, 0);
    BareRoundTrip(ms, U64_MAX);
    FormatIsNotPlus(Id(ms, 0));
    var x, y := Id(ms, U64_MAX), Id(ms, 0);
    SplitExact(entries, last, x);
    LaterGrows(entries, last, x, y);
    SequenceNumbersFit(entries, last);
    if Xrange(entries, [DASH], Decimal(ms)) + Xread(entries, Decimal(ms)) == entries {
      assert |Between(entries, None, Some(x))| + |Later(entries, x)| == |entries|;
      assert |Between(entries, None, Some(x))| + |Later(entries, y)| == |entries|;
    }
  }

  lemma SequenceNumbersFit(entries: seq<StreamEntry>, last: Id)
    requires WellOrdered(entries, last)
    ensures forall e | e in entries :: Fits(IdOf(e))
  {
  }

  // ----- ids as text -----

  /** The text names the id: the two numbers around the first dash, or one number, and then the given sequence number. */
  ghost predicate Names(s: Bytes, seqNo: nat, id: Id) {
    if 45 in s then exists i: nat :: DashesAt(s, i) && U64Text(s[..i], id.ms) && U64Text(s[i + 1..], id.seqNo)
    else U64Text(s, id.ms) && id.seqNo == seqNo
  }

  predicate DashesAt(s: Bytes, i: nat) {
    i < |s| && s[i] == 45 && 45 !in s[..i]
  }

  lemma FirstDash(s: Bytes)
    ensures DashAt(s) < |s| <==> 45 in s
    ensures forall i: nat :: DashesAt(s, i) <==> i == DashAt(s) < |s|
  {
    var d := DashAt(s);
    if d < |s| { assert forall j | 0 <= j < d :: s[..d][j] == s[j]; }
    forall i: nat | i <= |s| && d < i ensures s[d] in s[..i] {
      assert s[..i][d] == s[d];
    }
  }

  lemma ParseIdIs(s: Bytes, seqNo: nat, id: Id)
    ensures ParseId(s, seqNo) == Some(id) <==> Names(s, seqNo, id)
  {
    hide DashAt, DashesAt, U64Text, ParseU64;
    FirstDash(s);
    var i := DashAt(s);
    if i < |s| {
      ParseU64Is(s[..i], id.ms);
      ParseU64Is(s[i + 1..], id.seqNo);
      assert DashesAt(s, i);
    } else {
      ParseU64Is(s, id.ms);
    }
  }

  lemma ParseIdNone(s: Bytes, seqNo: nat)
    ensures ParseId(s, seqNo) == None <==> forall id :: !Names(s, seqNo, id)
  {
    forall id ensures ParseId(s, seqNo) == Some(id) <==> Names(s, seqNo, id) { ParseIdIs(s, seqNo, id); }
    if ParseId(s, seqNo).Some? { assert Names(s, seqNo, ParseId(s, seqNo).value); }
  }

  /** An issued id is printed as its two numbers around a dash. */
  lemma FormatIs(id: Id)
    ensures Format(id) == Decimal(id.ms) + [45] + Decimal(id.seqNo)
    ensures Numeral(Decimal(id.ms)) && Worth(Decimal(id.ms)) == id.ms
    ensures Numeral(Decimal(id.seqNo)) && Worth(Decimal(id.seqNo)) == id.seqNo
  {
    DecimalIs(id.ms);
    DecimalIs(id.seqNo);
  }

  // ----- which entries the two queries return -----

  lemma {:induction false} BelowCount(entries: seq<StreamEntry>, last: Id, x: Id) returns (less: nat, atMost: nat)
    requires WellOrdered(entries, last)
    ensures less <= atMost <= |entries|
    ensures forall i | 0 <= i < |entries| :: (i < less <==> Less(IdOf(entries[i]), x)) && (i < atMost <==> AtMost(IdOf(entries[i]), x))
  {
    hide IdOf;
    if entries == [] {
      less, atMost := 0, 0;
    } else {
      var rest := entries[1..];
      TailOrdered(entries, last);
      var l, m := BelowCount(rest, last, x);
      less := if Less(IdOf(entries[0]), x) then l + 1 else 0;
      atMost := if AtMost(IdOf(entries[0]), x) then m + 1 else 0;
      forall i | 0 < i < |entries|
        ensures (i < less <==> Less(IdOf(entries[i]), x)) && (i < atMost <==> AtMost(IdOf(entries[i]), x))
      {
        assert entries[i] == rest[i - 1] && entries[i] in rest;
      }
    }
  }

  predicate Kept(e: StreamEntry, lo: Option<Id>, hi: Option<Id>) {
    var id := ParseId(e.id, 0);
    id.Some? && (lo.Some? ==> AtMost(lo.value, id.value)) && (hi.Some? ==> AtMost(id.value, hi.value))
  }

  lemma {:induction false} BetweenSlice(entries: seq<StreamEntry>, lo: Option<Id>, hi: Option<Id>, a: nat, b: nat)
    requires a <= b <= |entries|
    requires forall i | 0 <= i < |entries| :: Kept(entries[i], lo, hi) <==> a <= i < b
    ensures Between(entries, lo, hi) == entries[a..b]
    decreases |entries|
  {
    hide Kept, Between;
    if entries == [] {
      BetweenNone(lo, hi);
    } else {
      var head, rest := entries[0], entries[1..];
      BetweenHead(entries, lo, hi);
      assert Kept(head, lo, hi) <==> a == 0 < b;
      var a', b' := if a > 0 then a - 1 else 0, if b > 0 then b - 1 else 0;
      BetweenSlice(rest, lo, hi, a', b');
      SliceFromTail(entries, head, rest, a, b);
    }
  }

  lemma SliceFromTail(entries: seq<StreamEntry>, head: StreamEntry, rest: seq<StreamEntry>, a: nat, b: nat)
    requires a <= b <= |entries| && entries == [head] + rest
    ensures a > 0 ==> entries[a..b] == rest[a - 1..b - 1]
    ensures a == 0 < b ==> entries[a..b] == [head] + rest[0..b - 1]
  {
  }

  lemma BetweenNone(lo: Option<Id>, hi: Option<Id>)
    ensures Between([], lo, hi) == []
  {
  }

  lemma BetweenHead(entries: seq<StreamEntry>, lo: Option<Id>, hi: Option<Id>)
    requires entries != []
    ensures Between(entries, lo, hi) ==
            if Kept(entries[0], lo, hi) then [entries[0]] + Between(entries[1..], lo, hi) else Between(entries[1..], lo, hi)
  {
  }

  lemma {:induction false} LaterSlice(entries: seq<StreamEntry>, last: Id, x: Id, a: nat)
    requires WellOrdered(entries, last) && a <= |entries|
    requires forall i | 0 <= i < |entries| :: Less(x, IdOf(entries[i])) <==> a <= i
    ensures Later(entries, x) == entries[a..]
    decreases |entries|
  {
    if entries != [] {
      var rest := entries[1..];
      TailOrdered(entries, last);
      if a > 0 {
        HeadBelow(entries, x);
        LaterSlice(rest, last, x, a - 1);
      } else {
        LaterSlice(rest, last, x, 0);
      }
    }
  }

  /**
   XRANGE returns, in order and once each, exactly the entries from `lo` to `hi` in numerical
   order; a dash and a plus leave their side open. `lo` and `hi` are the ids the bounds name,
   a bare millisecond being its first possible id as a start and its last as an end.
   */
  lemma XrangeExact(entries: seq<StreamEntry>, last: Id, start: Bytes, end: Bytes, lo: Id, hi: Id) returns (a: nat, b: nat)
    requires WellOrdered(entries, last)
    requires start == [45] || Names(start, 0, lo)
    requires end == [43] || Names(end, 18446744073709551615, hi)
    ensures a <= b <= |entries| && Xrange(entries, start, end) == entries[a..b]
    ensures forall i | 0 <= i < |entries| ::
              var id := IdOf(entries[i]);
              Names(entries[i].id, 0, id) &&
              (a <= i < b <==>
                 (start == [45] || lo.ms < id.ms || (lo.ms == id.ms && lo.seqNo <= id.seqNo)) &&
                 (end == [43] || id.ms < hi.ms || (id.ms == hi.ms && id.seqNo <= hi.seqNo)))
  {
    hide Names, ParseId;
    ParseIdIs(start, 0, lo);
    ParseIdIs(end, U64_MAX, hi);
    var belowLo, toLo := BelowCount(entries, last, lo);
    var belowHi, toHi := BelowCount(entries, last, hi);
    a := if start == [45] then 0 else belowLo;
    b := if end == [43] then |entries| else toHi;
    if b < a { b := a; }
    var from, to := if start == [45] then None else Some(lo), if end == [43] then None else Some(hi);
    forall i | 0 <= i < |entries|
      ensures Names(entries[i].id, 0, IdOf(entries[i])) && (Kept(entries[i], from, to) <==> a <= i < b)
    {
      assert entries[i] in entries;
      ParseIdIs(entries[i].id, 0, IdOf(entries[i]));
    }
    BetweenSlice(entries, from, to, a, b);
  }

  /** A bound that names no id gives nothing. */
  lemma XrangeUnreadable(entries: seq<StreamEntry>, start: Bytes, end: Bytes)
    requires (start != [45] && forall id :: !Names(start, 0, id)) || (end != [43] && forall id :: !Names(end, 18446744073709551615, id))
    ensures Xrange(entries, start, end) == []
  {
    ParseIdNone(start, 0);
    ParseIdNone(end, U64_MAX);
  }

  /** XREAD returns exactly the entries with an id above the one given, and nothing when it names none. */
  lemma XreadExact(entries: seq<StreamEntry>, last: Id, after: Bytes, x: Id) returns (a: nat)
    requires WellOrdered(entries, last) && Names(after, 0, x)
    ensures a <= |entries| && Xread(entries, after) == entries[a..]
    ensures forall i | 0 <= i < |entries| ::
              var id := IdOf(entries[i]);
              Names(entries[i].id, 0, id) && (a <= i <==> x.ms < id.ms || (x.ms == id.ms && x.seqNo < id.seqNo))
  {
    hide Names, ParseId;
    ParseIdIs(after, 0, x);
    var below, upTo := BelowCount(entries, last, x);
    a := upTo;
    forall i | 0 <= i < |entries| ensures Names(entries[i].id, 0, IdOf(entries[i])) {
      assert entries[i] in entries;
      ParseIdIs(entries[i].id, 0, IdOf(entries[i]));
    }
    LaterSlice(entries, last, x, a);
  }

  lemma XreadUnreadable(entries: seq<StreamEntry>, after: Bytes)
    requires forall id :: !Names(after, 0, id)
    ensures Xread(entries, after) == []
  {
    ParseIdNone(after, 0);
  }

  // ----- which ids are issued -----

  function SameMs(ids: seq<Id>, ms: nat): nat {
    if ids == [] then 0 else (if ids[0].ms == ms then 1 else 0) + SameMs(ids[1..], ms)
  }

  lemma {:induction false} IssueLength(last: Id, clock: seq<nat>)
    ensures |Issue(last, clock)| == |clock|
    decreases |clock|
  {
    if clock != [] { IssueLength(NextId(last, clock[0]), clock[1..]); }
  }

  lemma WrapsOnce(n: nat, m: nat, count: nat)
    requires n == m % 18446744073709551616
    ensures (count + (n + 1)) % 18446744073709551616 == (count + 1 + m) % 18446744073709551616
  {
  }

  lemma SameMsHead(next: Id, ids: seq<Id>, ms: nat)
    ensures SameMs([next] + ids, ms) == (if next.ms == ms then 1 else 0) + SameMs(ids, ms)
  {
    assert ([next] + ids)[1..] == ids;
  }

  /**
   The ids issued for a course of the clock: the millisecond is the latest reading so far,
   and the sequence number counts the ids issued before in that millisecond, modulo 2^64.
   */
  lemma {:induction false} IssuedIdsAre(last: Id, clock: seq<nat>, i: nat)
    requires i < |clock| && last.seqNo <= 18446744073709551615
    ensures i < |Issue(last, clock)|
    ensures var id := Issue(last, clock)[i];
            && id.ms >= last.ms && (forall j | 0 <= j <= i :: clock[j] <= id.ms)
            && (id.ms == last.ms || exists j :: 0 <= j <= i && clock[j] == id.ms)
            && id.seqNo == (SameMs(Issue(last, clock)[..i], id.ms) + (if id.ms == last.ms then last.seqNo + 1 else 0)) % 18446744073709551616
    decreases |clock|
  {
    hide SameMs;
    var next, rest := NextId(last, clock[0]), clock[1..];
    var ids, tail := Issue(last, clock), Issue(next, rest);
    IssueLength(last, clock);
    assert ids == [next] + tail;
    if i == 0 {
      SameMsNone(next.ms);
    } else {
      IssuedIdsAre(next, rest, i - 1);
      var id, before := tail[i - 1], tail[..i - 1];
      assert ids[i] == id && ids[..i] == [next] + before;
      assert forall j | 0 < j <= i :: clock[j] == rest[j - 1];
      SameMsHead(next, before, id.ms);
      CountOn(last, next, clock[0], id, SameMs(before, id.ms));
    }
  }

  lemma SameMsNone(ms: nat)
    ensures SameMs([], ms) == 0
  {
  }

  /** One more id in front of those counted. */
  lemma CountOn(last: Id, next: Id, now: nat, id: Id, count: nat)
    requires last.seqNo <= 18446744073709551615 && next == NextId(last, now) && id.ms >= next.ms
    requires id.seqNo == (count + (if id.ms == next.ms then next.seqNo + 1 else 0)) % 18446744073709551616
    ensures id.seqNo == ((if next.ms == id.ms then 1 else 0) + count + (if id.ms == last.ms then last.seqNo + 1 else 0)) % 18446744073709551616
  {
    if id.ms == next.ms == last.ms { WrapsOnce(next.seqNo, last.seqNo + 1, count); }
  }
}
