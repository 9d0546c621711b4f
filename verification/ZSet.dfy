/**
 The sorted set of the protocol cache: a vector of (score, member) pairs kept sorted, on
 top of which rank, score and the two range queries are linear scans.
 */
module ZSet {
  import opened Options
  import opened Ordering
  import opened Text

  ghost predicate DistinctIds(ms: seq<Key>) {
    forall i, j | 0 <= i < j < |ms| :: ms[i].id != ms[j].id
  }

  ghost predicate Ordered(ms: seq<Key>) {
    Sorted(ms, Itself) && DistinctIds(ms)
  }

  /** The member-to-score map a vector of pairs stands for. */
  ghost function Scores(ms: seq<Key>): map<Bytes, real>
    requires DistinctIds(ms)
  {
    map i | 0 <= i < |ms| :: ms[i].id := ms[i].score
  }

  // ----- queries -----

  /** Position of the member, or the length when it is absent. */
  function Position(ms: seq<Key>, id: Bytes): (i: nat)
    ensures i <= |ms|
    ensures i < |ms| ==> ms[i].id == id
    ensures forall j | 0 <= j < i :: ms[j].id != id
  {
    if ms == [] || ms[0].id == id then 0 else 1 + Position(ms[1..], id)
  }

  function Rank(ms: seq<Key>, id: Bytes): Option<nat> {
    var i := Position(ms, id);
    if i < |ms| then Some(i) else None
  }

  function Score(ms: seq<Key>, id: Bytes): Option<real> {
    var i := Position(ms, id);
    if i < |ms| then Some(ms[i].score) else None
  }

  /** Negative indices count from the end; both kinds are clamped into the sequence. */
  function Normalise(len: nat, i: int): int {
    if i < 0 then (if len + i < 0 then 0 else len + i)
    else if i < len - 1 then i else len - 1
  }

  function Range(ms: seq<Key>, start: int, stop: int): seq<Key> {
    if ms == [] then []
    else
      var s, e := Normalise(|ms|, start), Normalise(|ms|, stop);
      if s > e then [] else ms[s..e + 1]
  }

  function RangeByScore(ms: seq<Key>, min: real, max: real): seq<Key> {
    if ms == [] then []
    else (if min <= ms[0].score <= max then [ms[0]] else []) + RangeByScore(ms[1..], min, max)
  }

  // ----- the vector as an object -----

  class ZSetEntry {
    var members: seq<Key>

    ghost predicate Valid()
      reads this
    {
      Ordered(members)
    }

    constructor ()
      ensures Valid() && members == []
    {
      members := [];
    }

    /** Returns whether the member is new. */
    method Add(score: real, member: Bytes) returns (isNew: bool)
      requires Valid()
      modifies this
      ensures Valid()
      ensures Scores(members) == old(Scores(members))[member := score]
      ensures isNew == (member !in old(Scores(members)))
    {
      var i := 0;
      while i < |members| && members[i].id != member
        invariant i <= |members|
        invariant forall j | 0 <= j < i :: members[j].id != member
      {
        i := i + 1;
      }
      PutScore(members, i, Key(score, member));
      isNew := i == |members|;
      if isNew {
        members := members + [Key(score, member)];
      } else {
        members := members[i := Key(score, member)];
      }
      SortKeepsScores(members);
      members := Sort(members, Itself);
    }

    /** Returns whether the member was present. */
    method Remove(member: Bytes) returns (removed: bool)
      requires Valid()
      modifies this
      ensures Valid()
      ensures Scores(members) == old(Scores(members)) - {member}
      ensures removed == (member in old(Scores(members)))
    {
      ghost var before := members;
      RemoveKeepsOrder(members, member);
      var kept := Without(members, member);
      removed := |kept| != |members|;
      members := kept;
    }
  }

  /** `Vec::retain` on the members other than `id`. */
  function Without(ms: seq<Key>, id: Bytes): seq<Key> {
    if ms == [] then []
    else (if ms[0].id == id then [] else [ms[0]]) + Without(ms[1..], id)
  }

  lemma ScoresHas(ms: seq<Key>, k: Key)
    requires DistinctIds(ms)
    ensures k in ms <==> k.id in Scores(ms) && Scores(ms)[k.id] == k.score
  {
    if k in ms {
      var i :| 0 <= i < |ms| && ms[i] == k;
      assert k.id in Scores(ms);
    }
  }

  ghost predicate Has(m: map<Bytes, real>, k: Key) {
    k.id in m && m[k.id] == k.score
  }

  lemma ScoresHasAll(ms: seq<Key>)
    requires DistinctIds(ms)
    ensures forall k :: k in ms <==> Has(Scores(ms), k)
  {
    forall k ensures k in ms <==> Has(Scores(ms), k) { ScoresHas(ms, k); }
  }

  /** A map with the same pairs is the map of the vector. */
  lemma ScoresAre(ms: seq<Key>, m: map<Bytes, real>)
    requires DistinctIds(ms) && forall k :: k in ms <==> Has(m, k)
    ensures Scores(ms) == m
  {
    ScoresHasAll(ms);
    forall id ensures id in Scores(ms) <==> id in m {
      if id in Scores(ms) { assert Has(Scores(ms), Key(Scores(ms)[id], id)); }
      if id in m { assert Has(m, Key(m[id], id)); }
    }
    forall id | id in m ensures Scores(ms)[id] == m[id] {
      assert Has(m, Key(m[id], id));
    }
  }

  lemma DistinctByMultiset(a: seq<Key>, b: seq<Key>)
    requires DistinctIds(a) && multiset(a) == multiset(b)
    ensures DistinctIds(b)
  {
    assert NoDuplicates(a);
    PermutedNoDuplicates(a, b);
    forall i, j | 0 <= i < j < |b| ensures b[i].id != b[j].id {
      assert b[i] in multiset(a) && b[j] in multiset(a);
      ScoresHas(a, b[i]);
      ScoresHas(a, b[j]);
    }
  }

  lemma SortKeepsScores(ms: seq<Key>)
    requires DistinctIds(ms)
    ensures Ordered(Sort(ms, Itself)) && Scores(Sort(ms, Itself)) == Scores(ms)
  {
    SortSorts(ms, Itself);
    DistinctByMultiset(ms, Sort(ms, Itself));
    ScoresHasAll(ms);
    ScoresAre(Sort(ms, Itself), Scores(ms));
  }

  lemma {:induction false} WithoutMembers(ms: seq<Key>, id: Bytes)
    ensures forall k :: k in Without(ms, id) <==> k in ms && k.id != id
    ensures |Without(ms, id)| <= |ms|
    ensures |Without(ms, id)| == |ms| <==> forall k | k in ms :: k.id != id
  {
    if ms != [] {
      WithoutMembers(ms[1..], id);
      assert ms == [ms[0]] + ms[1..];
    }
  }

  lemma RemoveKeepsOrder(ms: seq<Key>, id: Bytes)
    requires Ordered(ms)
    ensures Ordered(Without(ms, id))
    ensures Scores(Without(ms, id)) == Scores(ms) - {id}
    ensures (|Without(ms, id)| != |ms|) == (id in Scores(ms))
  {
    WithoutOrdered(ms, id);
    WithoutMembers(ms, id);
    var kept, left := Without(ms, id), Scores(ms) - {id};
    forall k ensures k in kept <==> Has(left, k) { ScoresHas(ms, k); }
    ScoresAre(kept, left);
    if id in Scores(ms) { ScoresHas(ms, Key(Scores(ms)[id], id)); }
    if k :| k in ms && k.id == id { ScoresHas(ms, k); }
  }

  lemma ConsOrdered(h: Key, rest: seq<Key>)
    requires Ordered(rest) && LeqAll(h, rest, Itself) && forall k | k in rest :: k.id != h.id
    ensures Ordered([h] + rest)
  {
    var ms := [h] + rest;
    assert ms[1..] == rest;
    forall i, j | 0 <= i < j < |ms| ensures ms[i].id != ms[j].id {
      assert ms[j] == rest[j - 1];
    }
  }

  lemma {:induction false} WithoutOrdered(ms: seq<Key>, id: Bytes)
    requires Ordered(ms)
    ensures Ordered(Without(ms, id))
  {
    if ms != [] {
      var h, tail := ms[0], ms[1..];
      WithoutOrdered(tail, id);
      WithoutMembers(tail, id);
      forall k | k in tail ensures k.id != h.id {
        var j :| 0 <= j < |tail| && tail[j] == k;
        assert ms[j + 1] == k;
      }
      if h.id != id {
        ConsOrdered(h, Without(tail, id));
      } else {
        assert Without(ms, id) == Without(tail, id);
      }
    }
  }

  lemma PutMembers(ms: seq<Key>, i: nat, k: Key, x: Key)
    requires DistinctIds(ms) && i == Position(ms, k.id)
    ensures var put := if i < |ms| then ms[i := k] else ms + [k];
            x in put <==> (x == k || (x in ms && x.id != k.id))
  {
    var put := if i < |ms| then ms[i := k] else ms + [k];
    assert put[i] == k;
    if x in ms && x.id != k.id {
      var j :| 0 <= j < |ms| && ms[j] == x;
      assert put[j] == x;
    }
    if x in put && x != k {
      var j :| 0 <= j < |put| && put[j] == x;
      assert ms[j] == x;
    }
  }

  lemma PutDistinct(ms: seq<Key>, i: nat, k: Key, put: seq<Key>)
    requires DistinctIds(ms) && i == Position(ms, k.id) && put == if i < |ms| then ms[i := k] else ms + [k]
    ensures DistinctIds(put)
  {
    forall m, n | 0 <= m < n < |put| ensures put[m].id != put[n].id {
      assert m < |ms| && put[m].id == ms[m].id;
      assert n < |ms| ==> put[n].id == ms[n].id;
    }
  }

  /** Replacing the pair at `i`, or appending when there is none, sets the member's score. */
  lemma PutScore(ms: seq<Key>, i: nat, k: Key)
    requires DistinctIds(ms) && i == Position(ms, k.id)
    ensures var put := if i < |ms| then ms[i := k] else ms + [k];
            DistinctIds(put) && Scores(put) == Scores(ms)[k.id := k.score]
    ensures (i < |ms|) == (k.id in Scores(ms))
  {
    var put := if i < |ms| then ms[i := k] else ms + [k];
    PutDistinct(ms, i, k, put);
    var before := Scores(ms);
    var m := before[k.id := k.score];
    ScoresHasAll(ms);
    forall x ensures x in put <==> Has(m, x) {
      PutMembers(ms, i, k, x);
      assert x in ms <==> Has(before, x);
    }
    ScoresAre(put, m);
    PositionIn(ms, k.id);
  }

  lemma PositionIn(ms: seq<Key>, id: Bytes)
    requires DistinctIds(ms)
    ensures Position(ms, id) < |ms| <==> id in Scores(ms)
  {
  }

  // ----- what the sorted vector guarantees -----

  /** The vector is determined by the map it stands for. */
  lemma Canonical(a: seq<Key>, b: seq<Key>)
    requires Ordered(a) && Ordered(b) && Scores(a) == Scores(b)
    ensures a == b
  {
    assert NoDuplicates(a) && NoDuplicates(b);
    ScoresHasAll(a);
    ScoresHasAll(b);
    forall k ensures k in a <==> k in b {
      assert k in a <==> Has(Scores(a), k);
    }
    SortedMembersUnique(a, b, Itself);
  }

  lemma InOrder(ms: seq<Key>, i: nat, j: nat)
    requires Ordered(ms) && i < j < |ms|
    ensures Below(ms[i], ms[j])
  {
    SortedAt(ms, Itself, i, j);
  }

  /** Earlier pairs have a lower score, or the same score and a member that comes first in byte order. */
  lemma StrictlyOrdered(ms: seq<Key>, i: nat, j: nat)
    requires Ordered(ms) && i < j < |ms|
    ensures ms[i].score < ms[j].score || (ms[i].score == ms[j].score && Precedes(ms[i].id, ms[j].id))
  {
    InOrder(ms, i, j);
    BelowIsPrecedes(ms[i], ms[j]);
  }

  ghost function PairsBelow(m: map<Bytes, real>, k: Key): set<Bytes> {
    set id | id in m && Below(Key(m[id], id), k)
  }

  lemma {:induction false} PrefixIds(ms: seq<Key>, n: nat) returns (ids: set<Bytes>)
    requires DistinctIds(ms) && n <= |ms|
    ensures forall x :: x in ids <==> exists i | 0 <= i < n :: ms[i].id == x
    ensures |ids| == n
  {
    if n == 0 {
      ids := {};
    } else {
      var fewer := PrefixIds(ms, n - 1);
      ids := fewer + {ms[n - 1].id};
    }
  }

  lemma BelowIsBefore(ms: seq<Key>, i: nat, x: Bytes)
    requires Ordered(ms) && i < |ms|
    ensures x in PairsBelow(Scores(ms), ms[i]) <==> exists j | 0 <= j < i :: ms[j].id == x
  {
    if j :| 0 <= j < i && ms[j].id == x {
      InOrder(ms, j, i);
      ScoresHas(ms, ms[j]);
    }
    if x in PairsBelow(Scores(ms), ms[i]) {
      ScoresHas(ms, Key(Scores(ms)[x], x));
      var j :| 0 <= j < |ms| && ms[j] == Key(Scores(ms)[x], x);
      Total(ms[i], ms[j]);
      if j > i { InOrder(ms, i, j); }
    }
  }

  /** The members with a lower score than `score`, or with the same score and before `id`. */
  ghost function Lower(m: map<Bytes, real>, score: real, id: Bytes): set<Bytes> {
    set x | x in m && (m[x] < score || (m[x] == score && Precedes(x, id)))
  }

  lemma PairsBelowAreLower(m: map<Bytes, real>, k: Key)
    ensures PairsBelow(m, k) == Lower(m, k.score, k.id)
  {
    forall x | x in m ensures x in PairsBelow(m, k) <==> x in Lower(m, k.score, k.id) { BelowIsPrecedes(Key(m[x], x), k); }
  }

  /** The rank of a member is the number of members with a lower score, or the same score and before it. */
  lemma RankCounts(ms: seq<Key>, id: Bytes)
    requires Ordered(ms)
    ensures Rank(ms, id) == if id in Scores(ms) then Some(|Lower(Scores(ms), Scores(ms)[id], id)|) else None
    ensures Score(ms, id) == if id in Scores(ms) then Some(Scores(ms)[id]) else None
  {
    var i := Position(ms, id);
    if i < |ms| {
      ScoresHas(ms, ms[i]);
      var ids := PrefixIds(ms, i);
      forall x ensures x in ids <==> x in PairsBelow(Scores(ms), ms[i]) { BelowIsBefore(ms, i, x); }
      assert ids == PairsBelow(Scores(ms), ms[i]);
      PairsBelowAreLower(Scores(ms), ms[i]);
    }
  }

  /** Reading the range from a member's rank to itself gives that member with its score. */
  lemma RangeAtRank(ms: seq<Key>, id: Bytes)
    requires Ordered(ms) && id in Scores(ms)
    ensures var r := Rank(ms, id); r.Some? && Range(ms, r.value, r.value) == [Key(Scores(ms)[id], id)]
  {
    RankCounts(ms, id);
    var i := Position(ms, id);
    assert ms[i] == Key(Scores(ms)[id], id);
  }

  /** Every pair is in exactly one of the ranges before and from any position. */
  lemma RangesPartition(ms: seq<Key>, i: nat)
    requires 0 < i < |ms|
    ensures Range(ms, 0, i - 1) + Range(ms, i, -1) == ms
  {
  }

  /** The position an index names, which may lie outside the vector on either side. */
  function Named(len: nat, i: int): int {
    if i < 0 then len + i else i
  }

  /** The pairs at exactly the positions from `start` to `stop`, both included. */
  function Asked(ms: seq<Key>, start: int, stop: int): seq<Key> {
    var s, e := Named(|ms|, start), Named(|ms|, stop) + 1;
    var lo, hi := if s < 0 then 0 else s, if e > |ms| then |ms| else e;
    if lo < hi then ms[lo..hi] else []
  }

  /** The index names the last position or one behind it; a single pair is last whatever the index. */
  predicate NamesLast(len: nat, i: int) {
    i == -1 || i >= len - 1 || len == 1
  }

  /** The index names the first position or one before it; a single pair is first whatever the index. */
  predicate NamesFirst(len: nat, i: int) {
    i == 0 || len + i <= 0 || len == 1
  }

  /**
   Clamping both bounds returns the pairs the indices name, except in two cases: a start
   beyond the end is read as the last index, and a stop before the front as the first one.
   */
  lemma RangeIsAsked(ms: seq<Key>, start: int, stop: int)
    requires ms != []
    ensures Range(ms, start, stop) == Asked(ms, start, stop) <==>
              !(start >= |ms| && NamesLast(|ms|, stop)) && !(stop < -|ms| && NamesFirst(|ms|, start))
    ensures start >= |ms| && NamesLast(|ms|, stop) ==> Range(ms, start, stop) == [ms[|ms| - 1]]
    ensures stop < -|ms| && NamesFirst(|ms|, start) ==> Range(ms, start, stop) == [ms[0]]
  {
  }

  lemma {:induction false} NoneInScore(ms: seq<Key>, min: real, max: real)
    requires forall k | k in ms :: !(min <= k.score <= max)
    ensures RangeByScore(ms, min, max) == []
  {
    if ms != [] {
      assert ms[0] in ms;
      NoneInScore(ms[1..], min, max);
    }
  }

  lemma TailScores(ms: seq<Key>, max: real)
    requires Ordered(ms) && ms != [] && ms[0].score > max
    ensures forall k | k in ms :: k.score > max
  {
    forall k | k in ms ensures k.score > max {
      if k != ms[0] { assert k in ms[1..]; }
    }
  }

  /** The pairs with a score in the interval are one contiguous slice. */
  lemma {:induction false} RangeByScoreSlice(ms: seq<Key>, min: real, max: real) returns (lo: nat, hi: nat)
    requires Ordered(ms)
    ensures lo <= hi <= |ms| && RangeByScore(ms, min, max) == ms[lo..hi]
    ensures forall i | 0 <= i < |ms| :: lo <= i < hi <==> min <= ms[i].score <= max
  {
    if ms == [] {
      lo, hi := 0, 0;
    } else if ms[0].score > max {
      TailScores(ms, max);
      NoneInScore(ms, min, max);
      lo, hi := 0, 0;
    } else {
      var tail := ms[1..];
      var a, b := RangeByScoreSlice(tail, min, max);
      lo, hi := ExtendSlice(ms, tail, min, max, a, b, RangeByScore(tail, min, max));
    }
  }

  lemma ExtendSlice(ms: seq<Key>, tail: seq<Key>, min: real, max: real, a: nat, b: nat, found: seq<Key>) returns (lo: nat, hi: nat)
    requires ms != [] && Ordered(ms) && Ordered(tail) && tail == ms[1..] && ms[0].score <= max
    requires a <= b <= |tail| && found == tail[a..b]
    requires forall i | 0 <= i < |tail| :: a <= i < b <==> min <= tail[i].score <= max
    ensures lo <= hi <= |ms| && (if min <= ms[0].score then [ms[0]] else []) + found == ms[lo..hi]
    ensures forall i | 0 <= i < |ms| :: lo <= i < hi <==> min <= ms[i].score <= max
  {
    if ms[0].score < min {
      lo, hi := a + 1, b + 1;
      ShiftSlice(ms, tail, a, b);
      assert [] + found == found;
    } else {
      forall i | 0 <= i < |tail| ensures min <= tail[i].score {
        InOrder(ms, 0, i + 1);
      }
      SliceStarts(tail, min, max, a, b);
      lo, hi := 0, b - a + 1;
      FrontSlice(ms, tail, a, b, found);
    }
    InTail(ms, tail, min, max, a, b, lo, hi);
  }

  lemma ShiftSlice(ms: seq<Key>, tail: seq<Key>, a: nat, b: nat)
    requires ms != [] && tail == ms[1..] && a <= b <= |tail|
    ensures tail[a..b] == ms[a + 1..b + 1]
  {
  }

  lemma FrontSlice(ms: seq<Key>, tail: seq<Key>, a: nat, b: nat, found: seq<Key>)
    requires ms != [] && tail == ms[1..] && a <= b <= |tail| && found == tail[a..b] && (a == b || a == 0)
    ensures [ms[0]] + found == ms[0..b - a + 1]
  {
  }

  lemma InTail(ms: seq<Key>, tail: seq<Key>, min: real, max: real, a: nat, b: nat, lo: nat, hi: nat)
    requires ms != [] && tail == ms[1..] && a <= b <= |tail| && ms[0].score <= max
    requires forall i | 0 <= i < |tail| :: a <= i < b <==> min <= tail[i].score <= max
    requires if ms[0].score < min then lo == a + 1 && hi == b + 1
             else lo == 0 && hi == b - a + 1 && (a == b || a == 0)
    ensures forall i | 0 <= i < |ms| :: lo <= i < hi <==> min <= ms[i].score <= max
  {
    forall i | 0 <= i < |ms| ensures lo <= i < hi <==> min <= ms[i].score <= max {
      if i > 0 { assert ms[i] == tail[i - 1]; }
    }
  }

  /** When every score reaches the minimum, the slice starts at the front or is empty. */
  lemma SliceStarts(ms: seq<Key>, min: real, max: real, lo: nat, hi: nat)
    requires Ordered(ms) && lo <= hi <= |ms|
    requires forall i | 0 <= i < |ms| :: lo <= i < hi <==> min <= ms[i].score <= max
    requires forall i | 0 <= i < |ms| :: min <= ms[i].score
    ensures lo == hi || lo == 0
  {
    if 0 < lo < hi { InOrder(ms, 0, lo); }
  }
}
