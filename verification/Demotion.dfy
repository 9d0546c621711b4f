/**
 Tiered agent memory: the per-session working buffer, and the plan that sorts an agent's
 episodic entries by retention score and demotes the lowest. The score of an entry is the
 number that scoring gives at the moment of planning.
 */
module Demotion {
  import opened Text
  import opened Ordering

  const WORKING_CAPACITY: nat := 20

  datatype MemoryEntry = MemoryEntry(id: Bytes, session: Bytes, score: real)

  // ----- the working tier -----

  type Buffers = map<Bytes, seq<MemoryEntry>>

  function Held(buffers: Buffers, session: Bytes): seq<MemoryEntry> {
    if session in buffers then buffers[session] else []
  }

  /** How many of the oldest entries a buffer of this length gives up. */
  function Excess(length: nat): nat {
    if length > WORKING_CAPACITY then length - WORKING_CAPACITY else 0
  }

  datatype Op = DoPush(entry: MemoryEntry) | DoDrain(session: Bytes)

  /** The buffers after an operation, and the entries it hands out. */
  function Apply(buffers: Buffers, op: Op): (Buffers, seq<MemoryEntry>) {
    match op
    case DoPush(entry) =>
      var queued := Held(buffers, entry.session) + [entry];
      (buffers[entry.session := queued[Excess(|queued|)..]], queued[..Excess(|queued|)])
    case DoDrain(session) => (buffers - {session}, Held(buffers, session))
  }

  class WorkingTier {
    var inner: Buffers

    constructor ()
      ensures inner == map[]
    {
      inner := map[];
    }

    method Push(entry: MemoryEntry) returns (evicted: seq<MemoryEntry>)
      modifies this
      ensures (inner, evicted) == Apply(old(inner), DoPush(entry))
    {
      evicted := [];
      var buf := Held(inner, entry.session) + [entry];
      ghost var queued := buf;
      while |buf| > WORKING_CAPACITY
        invariant evicted + buf == queued
        invariant |evicted| <= Excess(|queued|)
        invariant |buf| >= if |queued| > WORKING_CAPACITY then WORKING_CAPACITY else |queued|
      {
        evicted := evicted + [buf[0]];
        buf := buf[1..];
      }
      inner := inner[entry.session := buf];
    }

    method Len(session: Bytes) returns (n: nat)
      ensures n == |Held(inner, session)|
    {
      n := if session in inner then |inner[session]| else 0;
    }

    method DrainSession(session: Bytes) returns (drained: seq<MemoryEntry>)
      modifies this
      ensures (inner, drained) == Apply(old(inner), DoDrain(session))
    {
      assert session !in inner ==> inner - {session} == inner;
      if session !in inner { return []; }
      drained := inner[session];
      inner := inner - {session};
    }
  }

  function Session(op: Op): Bytes {
    match op case DoPush(entry) => entry.session case DoDrain(session) => session
  }

  function After(ops: seq<Op>): Buffers {
    if ops == [] then map[] else Apply(After(ops[..|ops| - 1]), ops[|ops| - 1]).0
  }

  /** Everything ever handed out for a session, by overflow or by draining, in order. */
  function Released(ops: seq<Op>, session: Bytes): seq<MemoryEntry> {
    if ops == [] then []
    else
      var before, op := ops[..|ops| - 1], ops[|ops| - 1];
      Released(before, session) + if Session(op) == session then Apply(After(before), op).1 else []
  }

  function Pushed(ops: seq<Op>, session: Bytes): seq<MemoryEntry> {
    if ops == [] then []
    else
      var before, op := ops[..|ops| - 1], ops[|ops| - 1];
      Pushed(before, session) + if op.DoPush? && op.entry.session == session then [op.entry] else []
  }

  /** What was pushed for the session since it was last drained. */
  function SinceDrain(ops: seq<Op>, session: Bytes): seq<MemoryEntry> {
    if ops == [] then []
    else
      var before, op := ops[..|ops| - 1], ops[|ops| - 1];
      if op == DoDrain(session) then []
      else SinceDrain(before, session) + if op.DoPush? && op.entry.session == session then [op.entry] else []
  }

  /** Nothing is lost, repeated or reordered: what was handed out and what is held is what was pushed. */
  lemma {:induction false} FirstInFirstOut(ops: seq<Op>, session: Bytes)
    ensures Released(ops, session) + Held(After(ops), session) == Pushed(ops, session)
    decreases |ops|
  {
    if ops != [] {
      var before, op := ops[..|ops| - 1], ops[|ops| - 1];
      FirstInFirstOut(before, session);
      var out, held := Released(before, session), Held(After(before), session);
      if op.DoPush? && op.entry.session == session {
        var queued := held + [op.entry];
        CutAppend(out, queued, Excess(|queued|));
        CutAppend(out, queued, |held|);
        assert queued[..|held|] == held && queued[|held|..] == [op.entry];
      } else {
        assert out + [] == out && Pushed(before, session) + [] == Pushed(before, session);
        assert (out + held) + [] == out + held;
      }
    }
  }

  lemma CutAppend(out: seq<MemoryEntry>, queued: seq<MemoryEntry>, k: nat)
    requires k <= |queued|
    ensures (out + queued[..k]) + queued[k..] == out + queued
  {
  }

  /** The buffer of a session is the newest twenty entries pushed since its last drain. */
  lemma {:induction false} HoldsNewest(ops: seq<Op>, session: Bytes)
    ensures var since := SinceDrain(ops, session);
            Held(After(ops), session) == if |since| <= 20 then since else since[|since| - 20..]
    decreases |ops|
  {
    if ops != [] {
      var before, op := ops[..|ops| - 1], ops[|ops| - 1];
      HoldsNewest(before, session);
      var since := SinceDrain(before, session);
      if op.DoPush? && op.entry.session == session {
        NewestAfterPush(since, op.entry, since[Excess(|since|)..] + [op.entry]);
      } else if op == DoDrain(session) {
        assert SinceDrain(ops, session) == [];
      } else {
        assert since + [] == since;
      }
    }
  }

  lemma NewestAfterPush(since: seq<MemoryEntry>, e: MemoryEntry, queued: seq<MemoryEntry>)
    requires queued == since[Excess(|since|)..] + [e]
    ensures queued[Excess(|queued|)..] == (since + [e])[Excess(|since| + 1)..]
  {
    assert queued == (since + [e])[Excess(|since|)..];
  }

  // ----- the demotion plan -----

  function KeyOf(e: MemoryEntry): Key {
    Key(e.score, e.id)
  }

  function Scored(entries: seq<MemoryEntry>): seq<Key> {
    seq(|entries|, i requires 0 <= i < |entries| => KeyOf(entries[i]))
  }

  function Ids(ranked: seq<Key>): seq<Bytes> {
    seq(|ranked|, i requires 0 <= i < |ranked| => ranked[i].id)
  }

  datatype Plan = Plan(semantic: seq<Bytes>, archival: seq<Bytes>)

  /** The lowest twentieth is archived, the rest of the lowest fifth becomes semantic. */
  function PlanDemotion(entries: seq<MemoryEntry>): Plan {
    var scored := Sort(Scored(entries), Itself);
    var n := |entries|;
    SortSorts(Scored(entries), Itself);
    Plan(Ids(scored[n / 20..n / 5]), Ids(scored[..n / 20]))
  }

  ghost predicate DistinctIds(entries: seq<MemoryEntry>) {
    forall i, j | 0 <= i < j < |entries| :: entries[i].id != entries[j].id
  }

  /** How many keys are strictly below `k`. */
  function CountBelow(s: seq<Key>, k: Key): nat {
    if s == [] then 0 else (if Below(s[0], k) then 1 else 0) + CountBelow(s[1..], k)
  }

  lemma {:induction false} CountInsert(x: Key, s: seq<Key>, k: Key)
    ensures CountBelow(Insert(x, s, Itself), k) == (if Below(x, k) then 1 else 0) + CountBelow(s, k)
  {
    if s != [] {
      if Leq(x, s[0]) {
        assert ([x] + s)[1..] == s;
      } else {
        CountInsert(x, s[1..], k);
        assert ([s[0]] + Insert(x, s[1..], Itself))[1..] == Insert(x, s[1..], Itself);
      }
    }
  }

  lemma {:induction false} CountSort(s: seq<Key>, k: Key)
    ensures CountBelow(Sort(s, Itself), k) == CountBelow(s, k)
  {
    if s != [] {
      CountSort(s[1..], k);
      CountInsert(s[0], Sort(s[1..], Itself), k);
    }
  }

  lemma {:induction false} NoneBelow(s: seq<Key>, k: Key)
    requires LeqAll(k, s, Itself)
    ensures CountBelow(s, k) == 0
  {
    if s != [] {
      Total(k, s[0]);
      assert Leq(k, Itself(s[0]));
      forall x | x in s[1..] ensures Leq(k, Itself(x)) { assert x in s; }
      NoneBelow(s[1..], k);
    }
  }

  lemma {:induction false} CountAtPosition(s: seq<Key>, i: nat)
    requires Sorted(s, Itself) && NoDuplicates(s) && i < |s|
    ensures CountBelow(s, s[i]) == i
  {
    if i == 0 {
      Reflexive(s[0]);
      NoneBelow(s[1..], s[0]);
    } else {
      SortedAt(s, Itself, 0, i);
      CountAtPosition(s[1..], i - 1);
    }
  }

  lemma PlanSizes(entries: seq<MemoryEntry>)
    ensures |PlanDemotion(entries).archival| == |entries| / 20
    ensures |PlanDemotion(entries).semantic| == |entries| / 5 - |entries| / 20
  {
    SortSorts(Scored(entries), Itself);
  }

  /** The position of an entry among the sorted keys: nobody else has it, and it counts the keys below. */
  lemma RankedAt(entries: seq<MemoryEntry>, e: MemoryEntry) returns (ranked: seq<Key>, i: nat)
    requires DistinctIds(entries) && e in entries
    ensures ranked == Sort(Scored(entries), Itself) && |ranked| == |entries| && Sorted(ranked, Itself)
    ensures i < |ranked| && ranked[i] == KeyOf(e) && i == CountBelow(Scored(entries), KeyOf(e))
    ensures forall j | 0 <= j < |ranked| && ranked[j].id == e.id :: j == i
  {
    var scored := Scored(entries);
    ranked := Sort(scored, Itself);
    SortSorts(scored, Itself);
    ScoredNoDuplicates(entries);
    PermutedNoDuplicates(scored, ranked);
    var m :| 0 <= m < |entries| && entries[m] == e;
    assert scored[m] in ranked;
    i :| 0 <= i < |ranked| && ranked[i] == KeyOf(e);
    CountAtPosition(ranked, i);
    CountSort(scored, KeyOf(e));
    forall j | 0 <= j < |ranked| && ranked[j].id == e.id ensures j == i { KeyOfId(entries, ranked[j], e); }
  }

  lemma ScoredNoDuplicates(entries: seq<MemoryEntry>)
    requires DistinctIds(entries)
    ensures NoDuplicates(Scored(entries))
  {
    forall i, j | 0 <= i < j < |entries| ensures Scored(entries)[i] != Scored(entries)[j] {
      assert entries[i].id != entries[j].id;
    }
  }

  lemma KeyOfId(entries: seq<MemoryEntry>, k: Key, e: MemoryEntry)
    requires DistinctIds(entries) && e in entries && k in Scored(entries) && k.id == e.id
    ensures k == KeyOf(e)
  {
    var m :| 0 <= m < |entries| && entries[m] == e;
    var j :| 0 <= j < |entries| && Scored(entries)[j] == k;
    assert entries[j].id == entries[m].id;
  }

  /** A lower score, or the same score and an identifier that comes first. */
  ghost predicate Lower(a: MemoryEntry, b: MemoryEntry) {
    a.score < b.score || (a.score == b.score && Precedes(a.id, b.id))
  }

  lemma LowerIsBelow(a: MemoryEntry, b: MemoryEntry)
    ensures Lower(a, b) <==> Below(KeyOf(a), KeyOf(b))
  {
    BelowIsPrecedes(KeyOf(a), KeyOf(b));
  }

  ghost function LowerThan(entries: seq<MemoryEntry>, e: MemoryEntry): set<MemoryEntry> {
    set x | x in entries && Lower(x, e)
  }

  lemma LowerHead(entries: seq<MemoryEntry>, x: MemoryEntry, rest: seq<MemoryEntry>, e: MemoryEntry)
    requires entries == [x] + rest && x !in rest
    ensures |LowerThan(entries, e)| == |LowerThan(rest, e)| + (if Lower(x, e) then 1 else 0)
  {
    hide Lower;
    assert LowerThan(entries, e) == if Lower(x, e) then LowerThan(rest, e) + {x} else LowerThan(rest, e);
  }

  lemma NoneLower(e: MemoryEntry)
    ensures LowerThan([], e) == {}
  {
  }

  /** How many entries are lower, counted as a set of entries. */
  lemma {:induction false} CountIsLower(entries: seq<MemoryEntry>, e: MemoryEntry)
    requires DistinctIds(entries)
    ensures CountBelow(Scored(entries), KeyOf(e)) == |LowerThan(entries, e)|
    decreases |entries|
  {
    hide Lower, LowerThan, Below;
    if entries == [] {
      NoneLower(e);
    } else {
      var x, rest := entries[0], entries[1..];
      assert x !in rest;
      assert Scored(entries)[1..] == Scored(rest);
      CountIsLower(rest, e);
      LowerIsBelow(x, e);
      LowerHead(entries, x, rest, e);
    }
  }

  /** How many of the entries an entry must leave behind decides what becomes of it, and at which place of the plan it stands. */
  lemma PlanRanks(entries: seq<MemoryEntry>, e: MemoryEntry)
    requires DistinctIds(entries) && e in entries
    ensures var n, lower, p := |entries|, |LowerThan(entries, e)|, PlanDemotion(entries);
            && (e.id in p.archival <==> lower < n / 20)
            && (e.id in p.semantic <==> n / 20 <= lower < n / 5)
            && (lower < n / 20 ==> lower < |p.archival| && p.archival[lower] == e.id)
            && (n / 20 <= lower < n / 5 ==> lower - n / 20 < |p.semantic| && p.semantic[lower - n / 20] == e.id)
  {
    hide CountBelow, LowerThan;
    var ranked, i := RankedAt(entries, e);
    var n := |entries|;
    CountIsLower(entries, e);
    SliceHas(ranked, 0, n / 20, i);
    SliceHas(ranked, n / 20, n / 5, i);
    assert ranked[0..n / 20] == ranked[..n / 20];
  }

  lemma SliceHas(ranked: seq<Key>, from: nat, to: nat, i: nat)
    requires from <= to <= |ranked| && i < |ranked|
    requires forall j | 0 <= j < |ranked| && ranked[j].id == ranked[i].id :: j == i
    ensures ranked[i].id in Ids(ranked[from..to]) <==> from <= i < to
  {
    var ids := Ids(ranked[from..to]);
    if from <= i < to { assert ids[i - from] == ranked[i].id; }
    if ranked[i].id in ids {
      var k :| 0 <= k < |ids| && ids[k] == ranked[i].id;
      assert ranked[from + k].id == ranked[i].id;
    }
  }

  /** Archived below semantic below kept; so no entry is demoted twice. */
  lemma PlanOrder(entries: seq<MemoryEntry>, a: MemoryEntry, b: MemoryEntry)
    requires DistinctIds(entries) && a in entries && b in entries
    ensures var p := PlanDemotion(entries);
            && (a.id in p.archival && b.id !in p.archival ==>
                  a.score < b.score || (a.score == b.score && Precedes(a.id, b.id)))
            && (a.id in p.semantic && b.id !in p.archival && b.id !in p.semantic ==>
                  a.score < b.score || (a.score == b.score && Precedes(a.id, b.id)))
            && !(a.id in p.archival && a.id in p.semantic)
  {
    PlanRanks(entries, a);
    PlanRanks(entries, b);
    CountIsLower(entries, a);
    CountIsLower(entries, b);
    LowerIsBelow(a, b);
    var ranked, i := RankedAt(entries, a);
    var ranked', j := RankedAt(entries, b);
    if i < j {
      SortedAt(ranked, Itself, i, j);
    }
  }

  lemma {:induction false} ScoredPermutation(a: seq<MemoryEntry>, b: seq<MemoryEntry>)
    requires multiset(a) == multiset(b)
    ensures multiset(Scored(a)) == multiset(Scored(b))
    decreases |a|
  {
    if a == [] {
      assert |b| == |multiset(b)| == 0;
    } else {
      var e := a[0];
      assert e in multiset(b);
      var a' := TakeOut(a, e);
      var b' := TakeOut(b, e);
      ScoredPermutation(a', b');
    }
  }

  lemma TakeOut(s: seq<MemoryEntry>, e: MemoryEntry) returns (rest: seq<MemoryEntry>)
    requires e in s
    ensures |rest| < |s| && multiset(rest) == multiset(s) - multiset{e}
    ensures multiset(Scored(s)) == multiset(Scored(rest)) + multiset{KeyOf(e)}
  {
    var i :| 0 <= i < |s| && s[i] == e;
    rest := s[..i] + s[i + 1..];
    WithoutOne(s, e, s[..i], s[i + 1..], rest);
  }

  lemma WithoutOne(b: seq<MemoryEntry>, e: MemoryEntry, front: seq<MemoryEntry>, back: seq<MemoryEntry>, rest: seq<MemoryEntry>)
    requires |front| < |b| && b[|front|] == e && front == b[..|front|] && back == b[|front| + 1..] && rest == front + back
    ensures multiset(rest) == multiset(b) - multiset{e}
    ensures multiset(Scored(b)) == multiset(Scored(rest)) + multiset{KeyOf(e)}
  {
    var from := [e] + back;
    assert b == front + from;
    MiddleOut(front, e, back, from);
    ScoredAppend(front, from);
    ScoredAppend([e], back);
    ScoredAppend(front, back);
    assert Scored([e]) == [KeyOf(e)];
    MiddleOut(Scored(front), KeyOf(e), Scored(back), Scored(from));
  }

  lemma MiddleOut<T>(front: seq<T>, x: T, back: seq<T>, from: seq<T>)
    requires from == [x] + back
    ensures multiset(front + from) == multiset(front + back) + multiset{x}
  {
  }

  lemma ScoredAppend(a: seq<MemoryEntry>, b: seq<MemoryEntry>)
    ensures Scored(a + b) == Scored(a) + Scored(b)
  {
  }

  /** The plan does not depend on the order the entries were fetched in. */
  lemma PlanPermutation(a: seq<MemoryEntry>, b: seq<MemoryEntry>)
    requires multiset(a) == multiset(b)
    ensures PlanDemotion(a) == PlanDemotion(b)
  {
    ScoredPermutation(a, b);
    SortPermutation(Scored(a), Scored(b), Itself);
    assert |a| == |multiset(a)| == |multiset(b)| == |b|;
  }
}
