/**
 The string tier of the protocol cache: values with deadlines that are reclaimed lazily,
 by whichever operation meets them first, and by a background sweeper.

 Every operation runs at one clock reading, in nanoseconds. `others` are the keys held by
 the hash, list, sorted-set and stream tiers, `sketches` those of the probabilistic ones.
 */
module StringTier {
  import opened Options
  import opened Text
  import Glob

  const NANOS_PER_SECOND: nat := 1_000_000_000

  datatype Entry = Entry(value: Bytes, deadline: Option<nat>)

  type Table = map<Bytes, Entry>

  predicate Expired(e: Entry, now: nat) {
    e.deadline.Some? && now >= e.deadline.value
  }

  /** The entries a reader can still see. */
  function Live(m: Table, now: nat): Table {
    map k | k in m && !Expired(m[k], now) :: m[k]
  }

  datatype State = State(
    strings: Table, others: set<Bytes>, sketches: set<Bytes>, hits: nat, misses: nat, expired: nat)

  datatype Op =
    | Set(key: Bytes, value: Bytes, ttl: Option<nat>)
    | Get(key: Bytes)
    | Exists(key: Bytes)
    | Expire(key: Bytes, lifetime: nat)
    | Ttl(key: Bytes)
    | Keys(pattern: Bytes)
    | Del(key: Bytes)
    | Sweep

  datatype Answer = Unit | Value(found: Option<Bytes>) | Flag(b: bool) | Seconds(seconds: int) | Names(keys: set<Bytes>) | Count(n: nat)

  /** `remove_if(is_expired)`: drops the entry when it is expired and counts it. */
  function Reclaim(s: State, key: Bytes, now: nat): State {
    if key in s.strings && Expired(s.strings[key], now) then
      s.(strings := s.strings - {key}, expired := s.expired + 1)
    else s
  }

  function SweepAll(s: State, now: nat): State {
    s.(strings := Live(s.strings, now), expired := s.expired + |Dead(s.strings, now)|)
  }

  function Dead(m: Table, now: nat): set<Bytes> {
    set k | k in m && Expired(m[k], now)
  }

  function Step(s: State, op: Op, now: nat): (State, Answer) {
    match op
    case Set(k, v, ttl) =>
      var deadline := match ttl case Some(d) => Some(now + d) case None => None;
      (s.(strings := s.strings[k := Entry(v, deadline)]), Unit)
    case Get(k) =>
      var t := Reclaim(s, k, now);
      if k in t.strings then (t.(hits := t.hits + 1), Value(Some(t.strings[k].value)))
      else (t.(misses := t.misses + 1), Value(None))
    case Exists(k) =>
      var t := Reclaim(s, k, now);
      (t, Flag(k in t.strings || k in t.others))
    case Expire(k, d) =>
      var t := Reclaim(s, k, now);
      if k in t.strings then (t.(strings := t.strings[k := t.strings[k].(deadline := Some(now + d))]), Flag(true))
      else (t, Flag(false))
    case Ttl(k) =>
      var t := Reclaim(s, k, now);
      (t, Seconds(if k !in t.strings then -2
                  else match t.strings[k].deadline
                       case None => -1
                       case Some(d) => (d - now) / NANOS_PER_SECOND))
    case Keys(p) =>
      var t := SweepAll(s, now);
      (t, Names(set k | k in t.strings && Glob.Literal(p, k)))
    case Del(k) =>
      (s.(strings := s.strings - {k}, others := s.others - {k}, sketches := s.sketches - {k}),
       Flag(k in s.strings || k in s.others || k in s.sketches))
    case Sweep =>
      (SweepAll(s, now), Count(|Dead(s.strings, now)|))
  }

  // ----- the plain map the cache refines -----

  datatype View = View(table: Table, others: set<Bytes>, sketches: set<Bytes>)

  function Seen(s: State, now: nat): View {
    View(Live(s.strings, now), s.others, s.sketches)
  }

  /** The same operations on a map that simply holds the unexpired entries. */
  function Plain(v: View, op: Op, now: nat): (View, Answer) {
    var m := v.table;
    match op
    case Set(k, x, ttl) =>
      (v.(table := m[k := Entry(x, match ttl case Some(d) => Some(now + d) case None => None)]), Unit)
    case Get(k) => (v, Value(if k in m then Some(m[k].value) else None))
    case Exists(k) => (v, Flag(k in m || k in v.others))
    case Expire(k, d) =>
      if k in m then (v.(table := m[k := Entry(m[k].value, Some(now + d))]), Flag(true)) else (v, Flag(false))
    case Ttl(k) =>
      (v, Seconds(if k !in m then -2 else if m[k].deadline.None? then -1
                  else (m[k].deadline.value - now) / NANOS_PER_SECOND))
    case Keys(p) => (v, Names(set k | k in m && Glob.Literal(p, k)))
    case Del(k) =>
      (View(m - {k}, v.others - {k}, v.sketches - {k}), Flag(k in m || k in v.others || k in v.sketches))
    case Sweep => (v, Unit)
  }

  function Later(v: View, now: nat): View {
    v.(table := Live(v.table, now))
  }

  /** A DEL that would report an entry no reader can see any more. */
  predicate DelSeesDead(s: State, op: Op, now: nat) {
    op.Del? && op.key in s.strings && Expired(s.strings[op.key], now) &&
    op.key !in s.others && op.key !in s.sketches
  }

  /**
   One operation on the cache is the same operation on the plain map: the same entries are
   visible after it, and its answer is the plain answer unless a DEL sees a dead entry.
   */
  lemma RefinesPlainMap(s: State, op: Op, now: nat)
    ensures var (t, answer) := Step(s, op, now);
            var (v, plain) := Plain(Seen(s, now), op, now);
            Seen(t, now) == Later(v, now) && (op.Sweep? || (answer == plain <==> !DelSeesDead(s, op, now)))
  {
    hide Glob.Literal, Dead;
  }

  /** Time only hides entries. */
  lemma SeenLater(s: State, now: nat, later: nat)
    requires now <= later
    ensures Seen(s, later) == Later(Seen(s, now), later)
  {
  }

  // ----- the sweeper cannot be observed -----

  /** `a` is `b` after reclaiming some expired entries, up to the counters. */
  ghost predicate Swept(a: State, b: State, now: nat) {
    && (forall k | k in a.strings :: k in b.strings && a.strings[k] == b.strings[k])
    && (forall k | k in b.strings && k !in a.strings :: Expired(b.strings[k], now))
    && a.others == b.others && a.sketches == b.sketches
  }

  lemma SweptLater(a: State, b: State, now: nat, later: nat)
    requires Swept(a, b, now) && now <= later
    ensures Swept(a, b, later)
  {
  }

  lemma SweepIsSwept(a: State, b: State, now: nat)
    requires Swept(a, b, now)
    ensures Swept(Step(a, Sweep, now).0, b, now)
  {
  }

  lemma StepSwept(a: State, b: State, op: Op, now: nat)
    requires Swept(a, b, now) && !op.Sweep? && !DelSeesDead(b, op, now)
    ensures Swept(Step(a, op, now).0, Step(b, op, now).0, now)
    ensures Step(a, op, now).1 == Step(b, op, now).1
  {
    if op.Keys? {
      assert Live(a.strings, now) == Live(b.strings, now);
    }
  }

  datatype Event = At(op: Op, now: nat)

  ghost predicate Clocked(run: seq<Event>, start: nat) {
    run == [] || (start <= run[0].now && Clocked(run[1..], run[0].now))
  }

  function Run(s: State, run: seq<Event>): State
    decreases |run|
  {
    if run == [] then s else Run(Step(s, run[0].op, run[0].now).0, run[1..])
  }

  /** The answers of the callers' operations; the sweeper has no caller. */
  function Answers(s: State, run: seq<Event>): seq<Answer>
    decreases |run|
  {
    if run == [] then []
    else
      var (t, answer) := Step(s, run[0].op, run[0].now);
      (if run[0].op.Sweep? then [] else [answer]) + Answers(t, run[1..])
  }

  function WithoutSweeps(run: seq<Event>): seq<Event> {
    if run == [] then []
    else (if run[0].op.Sweep? then [] else [run[0]]) + WithoutSweeps(run[1..])
  }

  /** No DEL of the run reports an entry that has already expired. */
  predicate Quiet(s: State, run: seq<Event>)
    decreases |run|
  {
    run == [] || (!DelSeesDead(s, run[0].op, run[0].now) && Quiet(Step(s, run[0].op, run[0].now).0, run[1..]))
  }

  /** The answers the plain map gives to the callers' operations. */
  function PlainAnswers(v: View, run: seq<Event>): seq<Answer>
    decreases |run|
  {
    if run == [] then []
    else
      var (w, answer) := Plain(Later(v, run[0].now), run[0].op, run[0].now);
      (if run[0].op.Sweep? then [] else [answer]) + PlainAnswers(Later(w, run[0].now), run[1..])
  }

  /**
   Over any run the cache answers as the plain map of unexpired entries does, if and only if
   no DEL of the run reports an entry that has already expired.
   */
  lemma {:induction false} RunRefinesPlainMap(s: State, run: seq<Event>, start: nat)
    requires Clocked(run, start)
    ensures Answers(s, run) == PlainAnswers(Seen(s, start), run) <==> Quiet(s, run)
    decreases |run|
  {
    if run != [] {
      var e, rest := run[0], run[1..];
      SeenLater(s, start, e.now);
      RefinesPlainMap(s, e.op, e.now);
      var (t, answer) := Step(s, e.op, e.now);
      var (w, plain) := Plain(Seen(s, e.now), e.op, e.now);
      RunRefinesPlainMap(t, rest, e.now);
      SameOrNot(Answers(t, rest), PlainAnswers(Later(w, e.now), rest), answer, plain, e.op.Sweep?);
    }
  }

  /** Two answer lists agree when the first answers, if any, and the rest do. */
  lemma SameOrNot(a: seq<Answer>, b: seq<Answer>, x: Answer, y: Answer, silent: bool)
    ensures (if silent then [] else [x]) + a == (if silent then [] else [y]) + b <==> (silent || x == y) && a == b
  {
    assert [] + a == a && [] + b == b;
    assert ([x] + a)[0] == x && ([x] + a)[1..] == a;
    assert ([y] + b)[0] == y && ([y] + b)[1..] == b;
  }

  /** A run without DEL is always answered as by the plain map. */
  lemma {:induction false} WithoutDelIsQuiet(s: State, run: seq<Event>)
    requires forall e | e in run :: !e.op.Del?
    ensures Quiet(s, run)
    decreases |run|
  {
    if run != [] {
      assert run[0] in run;
      WithoutDelIsQuiet(Step(s, run[0].op, run[0].now).0, run[1..]);
    }
  }

  lemma {:induction false} SweepsInvisible(a: State, b: State, run: seq<Event>, start: nat)
    requires Swept(a, b, start) && Clocked(run, start) && Quiet(b, WithoutSweeps(run))
    ensures Answers(a, run) == Answers(b, WithoutSweeps(run))
    decreases |run|
  {
    if run != [] {
      var e, tail := run[0], run[1..];
      SweptLater(a, b, start, e.now);
      var a' := Step(a, e.op, e.now).0;
      if e.op.Sweep? {
        SweepIsSwept(a, b, e.now);
        assert WithoutSweeps(run) == WithoutSweeps(tail);
        SweepsInvisible(a', b, tail, e.now);
      } else {
        var rest := WithoutSweeps(tail);
        assert WithoutSweeps(run)[0] == e && WithoutSweeps(run)[1..] == rest;
        StepSwept(a, b, e.op, e.now);
        SweepsInvisible(a', Step(b, e.op, e.now).0, tail, e.now);
      }
    }
  }

  lemma {:induction false} NoSweepsLeft(run: seq<Event>)
    ensures forall e | e in WithoutSweeps(run) :: !e.op.Sweep?
  {
    if run != [] { NoSweepsLeft(run[1..]); }
  }

  lemma {:induction false} NothingToErase(run: seq<Event>)
    requires forall e | e in run :: !e.op.Sweep?
    ensures WithoutSweeps(run) == run
  {
    if run != [] {
      assert run[0] in run && forall e | e in run[1..] :: e in run;
      NothingToErase(run[1..]);
    }
  }

  /** When a DEL does see a dead entry, one sweep right before it changes its answer. */
  lemma {:induction false} SweepExposed(s: State, run: seq<Event>, start: nat) returns (swept: seq<Event>)
    requires Clocked(run, start) && !Quiet(s, run) && forall e | e in run :: !e.op.Sweep?
    ensures Clocked(swept, start) && WithoutSweeps(swept) == run && Answers(s, swept) != Answers(s, run)
    decreases |run|
  {
    var e, tail := run[0], run[1..];
    assert e in run && forall x | x in tail :: x in run;
    if DelSeesDead(s, e.op, e.now) {
      swept := [At(Sweep, e.now)] + run;
      NothingToErase(run);
      SweepBeforeDel(s, run);
    } else {
      var t := Step(s, e.op, e.now).0;
      var rest := SweepExposed(t, tail, e.now);
      swept := [e] + rest;
      assert swept[1..] == rest;
      SameHead(s, e, rest);
      SameHead(s, e, tail);
      assert [e] + tail == run;
    }
  }

  lemma SameHead(s: State, e: Event, rest: seq<Event>)
    requires !e.op.Sweep?
    ensures var (t, answer) := Step(s, e.op, e.now);
            |Answers(s, [e] + rest)| > 0 && Answers(s, [e] + rest)[1..] == Answers(t, rest)
  {
    assert ([e] + rest)[1..] == rest;
  }

  lemma SweepBeforeDel(s: State, run: seq<Event>)
    requires run != [] && DelSeesDead(s, run[0].op, run[0].now)
    ensures Answers(s, [At(Sweep, run[0].now)] + run) != Answers(s, run)
  {
    var swept := [At(Sweep, run[0].now)] + run;
    var t := Step(s, Sweep, run[0].now).0;
    assert swept[1..] == run;
    assert Answers(s, swept) == [] + Answers(t, run);
    assert Answers(t, run)[0] == Flag(false) && Answers(s, run)[0] == Flag(true);
  }

  /**
   However sweeps are inserted into a run, no answer changes, if and only if no DEL of the
   run removes an entry that had already expired.
   */
  lemma SweeperInvisible(s: State, run: seq<Event>, start: nat)
    requires Clocked(run, start) && forall e | e in run :: !e.op.Sweep?
    ensures Quiet(s, run) <==>
            forall swept | Clocked(swept, start) && WithoutSweeps(swept) == run :: Answers(s, swept) == Answers(s, run)
  {
    if Quiet(s, run) {
      forall swept | Clocked(swept, start) && WithoutSweeps(swept) == run
        ensures Answers(s, swept) == Answers(s, run)
      {
        SweepsInvisible(s, s, swept, start);
      }
    } else {
      var swept := SweepExposed(s, run, start);
    }
  }

  /** The last event of a run. */
  lemma LastAnswer(s: State, e: Event)
    requires !e.op.Sweep?
    ensures Answers(s, [e]) == [Step(s, e.op, e.now).1]
  {
    hide Step;
    assert [e][1..] == [];
  }

  /** In any state, deleting an entry right after its deadline: true, and false once the sweeper has been there. */
  lemma DelRevealsSweep(s: State, put: Event, del: Event)
    requires put.op.Set? && put.op.ttl == Some(0) && del == At(Del(put.op.key), put.now)
    requires put.op.key !in s.others && put.op.key !in s.sketches
    ensures !Quiet(s, [put, del])
    ensures Answers(s, [put, del]) == [Unit, Flag(true)]
    ensures Answers(s, [put, At(Sweep, put.now), del]) == [Unit, Flag(false)]
  {
    var sweep := At(Sweep, put.now);
    var t := Step(s, put.op, put.now).0;
    var u := Step(t, Sweep, put.now).0;
    assert [put, del][1..] == [del] && [put, sweep, del][1..] == [sweep, del] && [sweep, del][1..] == [del];
    LastAnswer(t, del);
    LastAnswer(u, del);
    assert Answers(t, [sweep, del]) == [] + [Flag(false)];
  }

  // ----- counters -----

  function Gets(run: seq<Event>): nat {
    if run == [] then 0 else (if run[0].op.Get? then 1 else 0) + Gets(run[1..])
  }

  lemma {:induction false} HitsAndMisses(s: State, run: seq<Event>)
    ensures Run(s, run).hits + Run(s, run).misses == s.hits + s.misses + Gets(run)
    decreases |run|
  {
    if run != [] { HitsAndMisses(Step(s, run[0].op, run[0].now).0, run[1..]); }
  }

  /** A SET of an absent key stores an entry, a DEL of a resident key takes one away. */
  function StoredBy(s: State, op: Op): int {
    if op.Set? && op.key !in s.strings then 1 else if op.Del? && op.key in s.strings then -1 else 0
  }

  function Stored(s: State, run: seq<Event>): int
    decreases |run|
  {
    if run == [] then 0 else StoredBy(s, run[0].op) + Stored(Step(s, run[0].op, run[0].now).0, run[1..])
  }

  lemma SweepCounts(m: Table, now: nat)
    ensures |Live(m, now)| + |Dead(m, now)| == |m|
  {
    assert m.Keys == Live(m, now).Keys + Dead(m, now);
    assert Live(m, now).Keys !! Dead(m, now);
  }

  lemma RemoveCounts(m: Table, k: Bytes)
    ensures |m - {k}| == |m| - (if k in m then 1 else 0)
  {
    assert (m - {k}).Keys == m.Keys - {k};
  }

  lemma ReclaimCounts(s: State, k: Bytes, now: nat)
    ensures var t := Reclaim(s, k, now);
            |t.strings| + t.expired == |s.strings| + s.expired && (k in t.strings ==> t == s)
  {
    RemoveCounts(s.strings, k);
  }

  lemma PutCounts(m: Table, k: Bytes, e: Entry)
    ensures |m[k := e]| == |m| + (if k in m then 0 else 1)
  {
    assert m[k := e].Keys == m.Keys + {k};
  }

  lemma SetCounts(s: State, k: Bytes, v: Bytes, ttl: Option<nat>, now: nat)
    ensures |Step(s, Set(k, v, ttl), now).0.strings| == |s.strings| + (if k in s.strings then 0 else 1)
  {
    PutCounts(s.strings, k, Step(s, Set(k, v, ttl), now).0.strings[k]);
  }

  lemma ExpireCounts(s: State, k: Bytes, d: nat, now: nat)
    ensures var t := Step(s, Expire(k, d), now).0;
            |t.strings| + t.expired == |s.strings| + s.expired
  {
    ReclaimCounts(s, k, now);
    var r := Reclaim(s, k, now);
    if k in r.strings { PutCounts(r.strings, k, r.strings[k].(deadline := Some(now + d))); }
  }

  lemma StepCounts(s: State, op: Op, now: nat)
    ensures var t := Step(s, op, now).0;
            |t.strings| + t.expired == |s.strings| + s.expired + StoredBy(s, op)
  {
    match op {
      case Set(k, v, ttl) => SetCounts(s, k, v, ttl, now);
      case Expire(k, d) => ExpireCounts(s, k, d, now);
      case Get(k) => ReclaimCounts(s, k, now);
      case Exists(k) => ReclaimCounts(s, k, now);
      case Ttl(k) => ReclaimCounts(s, k, now);
      case Del(k) => RemoveCounts(s.strings, k);
      case _ => SweepCounts(s.strings, now);
    }
  }

  /**
   Every stored entry that is gone without being replaced or deleted was counted as expired
   exactly once: entries stored = entries resident + entries counted as expired.
   */
  lemma {:induction false} ExpiredCountedOnce(s: State, run: seq<Event>)
    ensures |Run(s, run).strings| + Run(s, run).expired == |s.strings| + s.expired + Stored(s, run)
    decreases |run|
  {
    if run != [] {
      StepCounts(s, run[0].op, run[0].now);
      ExpiredCountedOnce(Step(s, run[0].op, run[0].now).0, run[1..]);
    }
  }

  lemma DeadOneLess(m: Table, now: nat, todo: set<Bytes>, k: Bytes)
    requires k in todo && k in m
    ensures |Dead(m, now) - (todo - {k})| == |Dead(m, now) - todo| + (if Expired(m[k], now) then 1 else 0)
  {
    var d := Dead(m, now);
    if k in d {
      assert d - (todo - {k}) == (d - todo) + {k};
    } else {
      assert d - (todo - {k}) == d - todo;
    }
  }

  /** `retain` of the sweeper: visits every entry once, in any order, and drops the expired ones. */
  method Retain(m: Table, now: nat) returns (kept: Table, removed: nat)
    ensures kept == Live(m, now) && removed == |Dead(m, now)|
  {
    var todo := m.Keys;
    kept, removed := m, 0;
    while todo != {}
      invariant todo <= m.Keys
      invariant forall k :: k in kept <==> k in m && (k in todo || !Expired(m[k], now))
      invariant forall k | k in kept :: kept[k] == m[k]
      invariant removed == |Dead(m, now) - todo|
      decreases |todo|
    {
      var k :| k in todo;
      DeadOneLess(m, now, todo, k);
      if Expired(kept[k], now) {
        kept := kept - {k};
        removed := removed + 1;
      }
      todo := todo - {k};
    }
    assert Dead(m, now) - todo == Dead(m, now);
  }

  // ----- the cache as an object -----

  class StringCache {
    var strings: Table
    var others: set<Bytes>
    var sketches: set<Bytes>
    var hits: nat
    var misses: nat
    var expired: nat

    ghost function Now(): State
      reads this
    {
      State(strings, others, sketches, hits, misses, expired)
    }

    constructor ()
      ensures Now() == State(map[], {}, {}, 0, 0, 0)
    {
      strings, others, sketches := map[], {}, {};
      hits, misses, expired := 0, 0, 0;
    }

    method SetValue(key: Bytes, value: Bytes, ttl: Option<nat>, now: nat)
      modifies this
      ensures Now() == Step(old(Now()), Set(key, value, ttl), now).0
    {
      var deadline := match ttl case Some(d) => Some(now + d) case None => None;
      strings := strings[key := Entry(value, deadline)];
    }

    method GetValue(key: Bytes, now: nat) returns (found: Option<Bytes>)
      modifies this
      ensures (Now(), Value(found)) == Step(old(Now()), Get(key), now)
    {
      found := None;
      if key in strings {
        if Expired(strings[key], now) {
          strings := strings - {key};
          expired := expired + 1;
          misses := misses + 1;
          return;
        }
        found := Some(strings[key].value);
      }
      if found.Some? { hits := hits + 1; } else { misses := misses + 1; }
    }

    method ReclaimString(key: Bytes, now: nat)
      modifies this
      ensures Now() == Reclaim(old(Now()), key, now)
    {
      if key in strings && Expired(strings[key], now) {
        strings := strings - {key};
        expired := expired + 1;
      }
    }

    method KeyExists(key: Bytes, now: nat) returns (b: bool)
      modifies this
      ensures (Now(), Flag(b)) == Step(old(Now()), Exists(key), now)
    {
      if key in strings {
        if !Expired(strings[key], now) { return true; }
        ReclaimString(key, now);
      }
      b := key in others;
    }

    method ExpireIn(key: Bytes, lifetime: nat, now: nat) returns (b: bool)
      modifies this
      ensures (Now(), Flag(b)) == Step(old(Now()), Expire(key, lifetime), now)
    {
      b := false;
      if key in strings {
        if !Expired(strings[key], now) {
          strings := strings[key := strings[key].(deadline := Some(now + lifetime))];
          return true;
        }
        ReclaimString(key, now);
      }
    }

    method TimeToLive(key: Bytes, now: nat) returns (seconds: int)
      modifies this
      ensures (Now(), Seconds(seconds)) == Step(old(Now()), Ttl(key), now)
    {
      seconds := -2;
      if key in strings {
        match strings[key].deadline {
          case None => seconds := -1;
          case Some(d) =>
            if d <= now {
              ReclaimString(key, now);
            } else {
              seconds := (d - now) / NANOS_PER_SECOND;
            }
        }
      }
    }

    method SweepExpiredOnce(now: nat) returns (removed: nat)
      modifies this
      ensures (Now(), Count(removed)) == Step(old(Now()), Sweep, now)
    {
      strings, removed := Retain(strings, now);
      if removed > 0 { expired := expired + removed; }
    }

    method MatchingKeys(pattern: Bytes, now: nat) returns (keys: set<Bytes>)
      modifies this
      ensures (Now(), Names(keys)) == Step(old(Now()), Keys(pattern), now)
    {
      var _ := SweepExpiredOnce(now);
      assert strings == Live(old(strings), now);
      keys := set k | k in strings && !Expired(strings[k], now) && Glob.Literal(pattern, k);
      assert keys == set k | k in strings && Glob.Literal(pattern, k);
    }

    method Delete(key: Bytes, now: nat) returns (removed: bool)
      modifies this
      ensures (Now(), Flag(removed)) == Step(old(Now()), Del(key), now)
    {
      removed := key in strings || key in others || key in sketches;
      strings := strings - {key};
      others := others - {key};
      sketches := sketches - {key};
    }
  }
}
