/**
 Reciprocal rank fusion of a text ranking and a vector ranking. Raw scores are carried
 along as values of any type `S`: nothing but equality of rows is ever asked of them.
 */
module Fusion {
  import opened Options
  import opened Ordering
  import opened Text

  datatype MemoryHit<S> = MemoryHit(id: Bytes, score: S)

  datatype FusedHit<S> = FusedHit(
    id: Bytes, rrfScore: real,
    textRank: Option<nat>, vectorRank: Option<nat>, textScore: Option<S>, vectorScore: Option<S>)

  // ----- what a fused hit is -----

  /** The one-based position at which `id` first occurs. */
  function FirstPosition<S>(rows: seq<MemoryHit<S>>, id: Bytes): (r: Option<nat>)
    ensures r.Some? ==> 0 < r.value <= |rows|
  {
    if rows == [] then None
    else
      var before, last := FirstPosition(rows[..|rows| - 1], id), rows[|rows| - 1];
      if before.Some? then before else if last.id == id then Some(|rows|) else None
  }

  lemma {:induction false} FirstPositionIs<S>(rows: seq<MemoryHit<S>>, id: Bytes, p: nat)
    ensures FirstPosition(rows, id) == Some(p) <==>
              0 < p <= |rows| && rows[p - 1].id == id && forall j | 0 <= j < p - 1 :: rows[j].id != id
    ensures FirstPosition(rows, id) == None <==> forall j | 0 <= j < |rows| :: rows[j].id != id
    decreases |rows|
  {
    if rows != [] {
      var front := rows[..|rows| - 1];
      FirstPositionIs(front, id, p);
      var before := FirstPosition(front, id);
      if before.Some? { FirstPositionIs(front, id, before.value); }
    }
  }

  function FirstScore<S>(rows: seq<MemoryHit<S>>, id: Bytes): Option<S> {
    var at := FirstPosition(rows, id);
    if at.None? then None else Some(rows[at.value - 1].score)
  }

  function Vote(k: real, rank: Option<nat>): real
    requires k >= 0.0 && (rank.Some? ==> rank.value > 0)
  {
    if rank.None? then 0.0 else 1.0 / (k + rank.value as real)
  }

  function Fused<S>(text: seq<MemoryHit<S>>, vector: seq<MemoryHit<S>>, k: real, id: Bytes): FusedHit<S>
    requires k >= 0.0
  {
    var t, v := FirstPosition(text, id), FirstPosition(vector, id);
    FusedHit(id, Vote(k, t) + Vote(k, v), t, v, FirstScore(text, id), FirstScore(vector, id))
  }

  predicate Supplied<S>(text: seq<MemoryHit<S>>, vector: seq<MemoryHit<S>>, id: Bytes) {
    FirstPosition(text, id).Some? || FirstPosition(vector, id).Some?
  }

  /** The damping constant as a caller may pass it; infinities and NaN are not finite. */
  datatype Damping = Finite(value: real) | NonFinite

  /** A constant that is negative or not finite counts as zero. */
  function Constant(k: Damping): (r: real)
    ensures r >= 0.0
  {
    if k.Finite? && k.value >= 0.0 then k.value else 0.0
  }

  /** Descending fused score, then ascending identifier. */
  function ByRank<S>(h: FusedHit<S>): Key {
    Key(-h.rrfScore, h.id)
  }

  // ----- the ranking -----

  function UniqueIds<S>(rows: seq<MemoryHit<S>>): seq<Bytes> {
    if rows == [] then []
    else
      var before, last := UniqueIds(rows[..|rows| - 1]), rows[|rows| - 1];
      if last.id in before then before else before + [last.id]
  }

  function FusedList<S>(ids: seq<Bytes>, text: seq<MemoryHit<S>>, vector: seq<MemoryHit<S>>, k: real): seq<FusedHit<S>>
    requires k >= 0.0
  {
    seq(|ids|, i requires 0 <= i < |ids| => Fused(text, vector, k, ids[i]))
  }

  function Ranking<S>(text: seq<MemoryHit<S>>, vector: seq<MemoryHit<S>>, k: real): seq<FusedHit<S>>
    requires k >= 0.0
  {
    Sort(FusedList(UniqueIds(text + vector), text, vector, k), ByRank)
  }

  function Fuse<S>(text: seq<MemoryHit<S>>, vector: seq<MemoryHit<S>>, k: Damping, limit: nat): seq<FusedHit<S>> {
    var all := Ranking(text, vector, Constant(k));
    if limit <= |all| then all[..limit] else all
  }

  /** Exactly the supplied identifiers, once each, every one with its fused hit. */
  ghost predicate Hits<S(!new)>(all: seq<FusedHit<S>>, text: seq<MemoryHit<S>>, vector: seq<MemoryHit<S>>, k: real)
    requires k >= 0.0
  {
    && NoDuplicates(all)
    && forall h :: h in all <==> Supplied(text, vector, h.id) && h == Fused(text, vector, k, h.id)
  }

  lemma {:induction false} UniqueIdsAre<S>(rows: seq<MemoryHit<S>>)
    ensures NoDuplicates(UniqueIds(rows))
    ensures forall id :: id in UniqueIds(rows) <==> FirstPosition(rows, id).Some?
    decreases |rows|
  {
    if rows != [] { UniqueIdsAre(rows[..|rows| - 1]); }
  }

  lemma {:induction false} PositionInEither<S>(a: seq<MemoryHit<S>>, b: seq<MemoryHit<S>>, id: Bytes)
    ensures FirstPosition(a + b, id).Some? <==> FirstPosition(a, id).Some? || FirstPosition(b, id).Some?
    decreases |b|
  {
    if b == [] {
      assert a + b == a;
    } else {
      assert (a + b)[..|a + b| - 1] == a + b[..|b| - 1];
      PositionInEither(a, b[..|b| - 1], id);
    }
  }

  lemma RankingHits<S(!new)>(text: seq<MemoryHit<S>>, vector: seq<MemoryHit<S>>, k: real)
    requires k >= 0.0
    ensures Sorted(Ranking(text, vector, k), ByRank) && Hits(Ranking(text, vector, k), text, vector, k)
  {
    var ids := UniqueIds(text + vector);
    var list := FusedList(ids, text, vector, k);
    UniqueIdsAre(text + vector);
    forall id ensures id in ids <==> Supplied(text, vector, id) { PositionInEither(text, vector, id); }
    SortSorts(list, ByRank);
    assert NoDuplicates(list) by {
      forall i, j | 0 <= i < j < |list| ensures list[i] != list[j] { assert ids[i] != ids[j]; }
    }
    PermutedNoDuplicates(list, Ranking(text, vector, k));
    forall h ensures h in list <==> Supplied(text, vector, h.id) && h == Fused(text, vector, k, h.id) {
      if h.id in ids && h == Fused(text, vector, k, h.id) {
        var i :| 0 <= i < |ids| && ids[i] == h.id;
        assert list[i] == h;
      }
    }
  }

  lemma HitsUnique<S(!new)>(a: seq<FusedHit<S>>, text: seq<MemoryHit<S>>, vector: seq<MemoryHit<S>>, k: real)
    requires k >= 0.0 && Sorted(a, ByRank) && Hits(a, text, vector, k)
    ensures a == Ranking(text, vector, k)
  {
    RankingHits(text, vector, k);
    SortedMembersUnique(a, Ranking(text, vector, k), ByRank);
  }

  // ----- the algorithm -----

  /** The table of hits once `text` and `vector` have been counted. */
  ghost predicate Table<S>(hits: map<Bytes, FusedHit<S>>, text: seq<MemoryHit<S>>, vector: seq<MemoryHit<S>>, k: real)
    requires k >= 0.0
  {
    && (forall id :: id in hits <==> Supplied(text, vector, id))
    && (forall id | id in hits :: hits[id] == Fused(text, vector, k, id))
  }

  lemma PositionAfter<S>(rows: seq<MemoryHit<S>>, hit: MemoryHit<S>, id: Bytes)
    ensures var before, after := FirstPosition(rows, id), FirstPosition(rows + [hit], id);
            after == if before.Some? then before else if hit.id == id then Some(|rows| + 1) else None
    ensures FirstScore(rows + [hit], id) ==
              if FirstPosition(rows, id).None? && hit.id == id then Some(hit.score) else FirstScore(rows, id)
  {
    assert (rows + [hit])[..|rows|] == rows;
  }

  lemma TextRow<S>(text: seq<MemoryHit<S>>, vector: seq<MemoryHit<S>>, hit: MemoryHit<S>, k: real, id: Bytes)
    requires k >= 0.0
    ensures Supplied(text + [hit], vector, id) <==> Supplied(text, vector, id) || id == hit.id
    ensures var before, p := Fused(text, vector, k, id), |text| + 1;
            Fused(text + [hit], vector, k, id) ==
              if id != hit.id || before.textRank.Some? then before
              else before.(textRank := Some(p), textScore := Some(hit.score), rrfScore := before.rrfScore + 1.0 / (k + p as real))
  {
    PositionAfter(text, hit, id);
  }

  lemma VectorRow<S>(text: seq<MemoryHit<S>>, vector: seq<MemoryHit<S>>, hit: MemoryHit<S>, k: real, id: Bytes)
    requires k >= 0.0
    ensures Supplied(text, vector + [hit], id) <==> Supplied(text, vector, id) || id == hit.id
    ensures var before, p := Fused(text, vector, k, id), |vector| + 1;
            Fused(text, vector + [hit], k, id) ==
              if id != hit.id || before.vectorRank.Some? then before
              else before.(vectorRank := Some(p), vectorScore := Some(hit.score), rrfScore := before.rrfScore + 1.0 / (k + p as real))
  {
    PositionAfter(vector, hit, id);
  }

  lemma TextTable<S>(hits: map<Bytes, FusedHit<S>>, text: seq<MemoryHit<S>>, vector: seq<MemoryHit<S>>,
                     hit: MemoryHit<S>, k: real, counted: map<Bytes, FusedHit<S>>)
    requires k >= 0.0 && Table(hits, text, vector, k)
    requires counted == hits[hit.id := Fused(text + [hit], vector, k, hit.id)]
    ensures Table(counted, text + [hit], vector, k)
  {
    forall id { TextRow(text, vector, hit, k, id); }
  }

  lemma VectorTable<S>(hits: map<Bytes, FusedHit<S>>, text: seq<MemoryHit<S>>, vector: seq<MemoryHit<S>>,
                       hit: MemoryHit<S>, k: real, counted: map<Bytes, FusedHit<S>>)
    requires k >= 0.0 && Table(hits, text, vector, k)
    requires counted == hits[hit.id := Fused(text, vector + [hit], k, hit.id)]
    ensures Table(counted, text, vector + [hit], k)
  {
    forall id { VectorRow(text, vector, hit, k, id); }
  }

  /** The entry a row finds, or inserts. */
  function Entry<S>(hits: map<Bytes, FusedHit<S>>, id: Bytes): FusedHit<S> {
    if id in hits then hits[id] else FusedHit(id, 0.0, None, None, None, None)
  }

  lemma EntryIs<S>(hits: map<Bytes, FusedHit<S>>, text: seq<MemoryHit<S>>, vector: seq<MemoryHit<S>>, k: real, id: Bytes)
    requires k >= 0.0 && Table(hits, text, vector, k)
    ensures Entry(hits, id) == Fused(text, vector, k, id)
  {
  }

  /** One row of the text branch: it counts only if its identifier is new to that branch. */
  method CountText<S>(hits: map<Bytes, FusedHit<S>>, hit: MemoryHit<S>, position: nat, k: real,
                      ghost text: seq<MemoryHit<S>>, ghost vector: seq<MemoryHit<S>>)
    returns (counted: map<Bytes, FusedHit<S>>)
    requires k >= 0.0 && Table(hits, text, vector, k) && position == |text| + 1
    ensures Table(counted, text + [hit], vector, k)
  {
    hide Table, Fused, Supplied;
    var entry := Entry(hits, hit.id);
    EntryIs(hits, text, vector, k, hit.id);
    TextRow(text, vector, hit, k, hit.id);
    if entry.textRank == None {
      var vote := 1.0 / (k + position as real);
      entry := entry.(textRank := Some(position), textScore := Some(hit.score), rrfScore := entry.rrfScore + vote);
    }
    counted := hits[hit.id := entry];
    TextTable(hits, text, vector, hit, k, counted);
  }

  /** One row of the vector branch, likewise. */
  method CountVector<S>(hits: map<Bytes, FusedHit<S>>, hit: MemoryHit<S>, position: nat, k: real,
                        ghost text: seq<MemoryHit<S>>, ghost vector: seq<MemoryHit<S>>)
    returns (counted: map<Bytes, FusedHit<S>>)
    requires k >= 0.0 && Table(hits, text, vector, k) && position == |vector| + 1
    ensures Table(counted, text, vector + [hit], k)
  {
    hide Table, Fused, Supplied;
    var entry := Entry(hits, hit.id);
    EntryIs(hits, text, vector, k, hit.id);
    VectorRow(text, vector, hit, k, hit.id);
    if entry.vectorRank == None {
      var vote := 1.0 / (k + position as real);
      entry := entry.(vectorRank := Some(position), vectorScore := Some(hit.score), rrfScore := entry.rrfScore + vote);
    }
    counted := hits[hit.id := entry];
    VectorTable(hits, text, vector, hit, k, counted);
  }

  /** Sorts the table's values, in whatever order they come out of it. */
  method RankHits<S(==,!new)>(hits: map<Bytes, FusedHit<S>>, k: real, ghost text: seq<MemoryHit<S>>, ghost vector: seq<MemoryHit<S>>)
    returns (ranked: seq<FusedHit<S>>)
    requires k >= 0.0 && Table(hits, text, vector, k)
    ensures ranked == Ranking(text, vector, k)
  {
    var ids, list: seq<FusedHit<S>> := hits.Keys, [];
    while ids != {}
      invariant ids <= hits.Keys && NoDuplicates(list)
      invariant forall h :: h in list <==> h.id in hits && h.id !in ids && h == hits[h.id]
      decreases |ids|
    {
      var id :| id in ids;
      ids := ids - {id};
      assert hits[id].id == id;
      list := list + [hits[id]];
    }
    ranked := Sort(list, ByRank);
    SortSorts(list, ByRank);
    PermutedNoDuplicates(list, ranked);
    HitsUnique(ranked, text, vector, k);
  }

  lemma EmptyTable<S>(k: real)
    requires k >= 0.0
    ensures Table<S>(map[], [], [], k)
  {
  }

  method FuseRanks<S(==,!new)>(text: seq<MemoryHit<S>>, vector: seq<MemoryHit<S>>, k: Damping, limit: nat)
    returns (result: seq<FusedHit<S>>)
    ensures result == Fuse(text, vector, k, limit)
  {
    if limit == 0 { return []; }
    hide Table, Ranking, Fused;
    var c := Constant(k);
    EmptyTable<S>(c);
    var hits: map<Bytes, FusedHit<S>> := map[];
    for branch := 0 to 2
      invariant Table(hits, if branch > 0 then text else [], if branch > 1 then vector else [], c)
    {
      var isText := branch == 0;
      var rows := if isText then text else vector;
      for index := 0 to |rows|
        invariant isText ==> Table(hits, rows[..index], [], c)
        invariant !isText ==> Table(hits, text, rows[..index], c)
      {
        assert rows[..index] + [rows[index]] == rows[..index + 1];
        if isText {
          hits := CountText(hits, rows[index], index + 1, c, rows[..index], []);
        } else {
          hits := CountVector(hits, rows[index], index + 1, c, text, rows[..index]);
        }
      }
      assert rows[..|rows|] == rows;
    }
    result := RankHits(hits, c, text, vector);
    if |result| > limit { result := result[..limit]; }
  }

  // ----- what the result says -----

  /** The fused score as documented: the sum of 1 / (k + one-based rank), a negative or non-finite k being zero. */
  function RrfScore<S>(text: seq<MemoryHit<S>>, vector: seq<MemoryHit<S>>, k: Damping, id: Bytes): real {
    var damping := if k.Finite? && k.value >= 0.0 then k.value else 0.0;
    match (FirstPosition(text, id), FirstPosition(vector, id))
    case (Some(t), Some(v)) => 1.0 / (damping + t as real) + 1.0 / (damping + v as real)
    case (Some(t), None) => 1.0 / (damping + t as real)
    case (None, Some(v)) => 1.0 / (damping + v as real)
    case (None, None) => 0.0
  }

  ghost predicate Occurs<S>(rows: seq<MemoryHit<S>>, id: Bytes) {
    exists i :: 0 <= i < |rows| && rows[i].id == id
  }

  lemma SuppliedOccurs<S>(text: seq<MemoryHit<S>>, vector: seq<MemoryHit<S>>, id: Bytes)
    ensures Supplied(text, vector, id) <==> Occurs(text, id) || Occurs(vector, id)
  {
    FirstPositionIs(text, id, 0);
    FirstPositionIs(vector, id, 0);
  }

  lemma FusedIs<S>(text: seq<MemoryHit<S>>, vector: seq<MemoryHit<S>>, k: Damping, h: FusedHit<S>)
    requires Supplied(text, vector, h.id) && h == Fused(text, vector, Constant(k), h.id)
    ensures Scores(text, vector, k, h)
  {
    SuppliedOccurs(text, vector, h.id);
  }

  /** The hit of an identifier that occurs: first positions, the scores found there, and the fused score of those positions. */
  ghost predicate Scores<S>(text: seq<MemoryHit<S>>, vector: seq<MemoryHit<S>>, k: Damping, h: FusedHit<S>) {
    && (Occurs(text, h.id) || Occurs(vector, h.id))
    && h.rrfScore == RrfScore(text, vector, k, h.id)
    && h.textRank == FirstPosition(text, h.id) && h.vectorRank == FirstPosition(vector, h.id)
    && h.textScore == (if h.textRank.Some? then Some(text[h.textRank.value - 1].score) else None)
    && h.vectorScore == (if h.vectorRank.Some? then Some(vector[h.vectorRank.value - 1].score) else None)
  }

  /** Supplied identifiers only, each once, and everything about them as their first positions say. */
  lemma EachOnce<S(!new)>(text: seq<MemoryHit<S>>, vector: seq<MemoryHit<S>>, k: Damping, limit: nat)
    ensures var r := Fuse(text, vector, k, limit);
            && |r| <= limit
            && (forall i, j | 0 <= i < j < |r| :: r[i].id != r[j].id)
            && (forall h | h in r :: Scores(text, vector, k, h))
  {
    hide Ranking, UniqueIds, Scores, Fused, Supplied;
    var c := Constant(k);
    var all, r := Ranking(text, vector, c), Fuse(text, vector, k, limit);
    RankingHits(text, vector, c);
    forall h | h in r ensures Scores(text, vector, k, h) {
      assert h in all;
      FusedIs(text, vector, k, h);
    }
    forall i, j | 0 <= i < j < |r| ensures r[i].id != r[j].id {
      assert r[i] == all[i] && r[j] == all[j];
      assert all[i] in all && all[j] in all;
    }
  }

  /** One hit ranks strictly before a score and an identifier. */
  ghost predicate Ahead<S>(h: FusedHit<S>, score: real, id: Bytes) {
    h.rrfScore > score || (h.rrfScore == score && Precedes(h.id, id))
  }

  /** Highest score first, equal scores by identifier; what is cut off ranks behind everything kept. */
  lemma BestFirst<S(!new)>(text: seq<MemoryHit<S>>, vector: seq<MemoryHit<S>>, k: Damping, limit: nat)
    ensures var r := Fuse(text, vector, k, limit);
            && (forall i, j | 0 <= i < j < |r| :: Ahead(r[i], r[j].rrfScore, r[j].id))
            && (forall id, i | (Occurs(text, id) || Occurs(vector, id)) && (forall h | h in r :: h.id != id) && 0 <= i < |r| ::
                  Ahead(r[i], RrfScore(text, vector, k, id), id))
            && (forall id | (Occurs(text, id) || Occurs(vector, id)) && (forall h | h in r :: h.id != id) :: |r| == limit)
  {
    hide Ranking, Supplied, Occurs, RrfScore;
    var c := Constant(k);
    var all, r := Ranking(text, vector, c), Fuse(text, vector, k, limit);
    RankingHits(text, vector, c);
    forall i, j | 0 <= i < j < |all| ensures Ahead(all[i], all[j].rrfScore, all[j].id) {
      SortedAt(all, ByRank, i, j);
      BelowIsPrecedes(ByRank(all[i]), ByRank(all[j]));
    }
    forall id | (Occurs(text, id) || Occurs(vector, id)) && (forall h | h in r :: h.id != id)
      ensures |r| == limit && forall i | 0 <= i < |r| :: Ahead(r[i], RrfScore(text, vector, k, id), id)
    {
      SuppliedOccurs(text, vector, id);
      var h := Fused(text, vector, c, id);
      assert h in all && h !in r;
      FusedScore(text, vector, k, id);
      var j :| 0 <= j < |all| && all[j] == h;
      Beyond(all, |r|, r, j);
    }
  }

  lemma FusedScore<S>(text: seq<MemoryHit<S>>, vector: seq<MemoryHit<S>>, k: Damping, id: Bytes)
    ensures Fused(text, vector, Constant(k), id).rrfScore == RrfScore(text, vector, k, id)
  {
  }

  lemma Beyond<S>(all: seq<FusedHit<S>>, cut: nat, front: seq<FusedHit<S>>, j: nat)
    requires cut <= |all| && front == all[..cut] && j < |all| && all[j] !in front
    ensures j >= cut
  {
    assert forall m | 0 <= m < cut :: front[m] in front && front[m] == all[m];
  }

  /** A smaller limit cuts the same list shorter. */
  lemma SmallerLimit<S(!new)>(text: seq<MemoryHit<S>>, vector: seq<MemoryHit<S>>, k: Damping, small: nat, large: nat)
    requires small <= large
    ensures Fuse(text, vector, k, small) <= Fuse(text, vector, k, large)
  {
  }

  function Keys<S>(hits: seq<FusedHit<S>>): seq<Key> {
    seq(|hits|, i requires 0 <= i < |hits| => ByRank(hits[i]))
  }

  /** The keys of the ranking: sorted, and fixed by which identifiers are supplied and how they score. */
  lemma KeysAre<S(!new)>(text: seq<MemoryHit<S>>, vector: seq<MemoryHit<S>>, k: real)
    requires k >= 0.0
    ensures var keys := Keys(Ranking(text, vector, k));
            && Sorted(keys, Itself) && NoDuplicates(keys)
            && forall x :: x in keys <==> Supplied(text, vector, x.id) && x == ByRank(Fused(text, vector, k, x.id))
  {
    var all := Ranking(text, vector, k);
    var keys := Keys(all);
    RankingHits(text, vector, k);
    KeysSorted(all, keys);
    forall i, j | 0 <= i < j < |keys| ensures keys[i] != keys[j] {
      assert all[i] in all && all[j] in all && all[i] != all[j];
    }
    forall x ensures x in keys <==> Supplied(text, vector, x.id) && x == ByRank(Fused(text, vector, k, x.id)) {
      if x in keys {
        var i :| 0 <= i < |keys| && keys[i] == x;
        assert all[i] in all;
      }
      if Supplied(text, vector, x.id) && x == ByRank(Fused(text, vector, k, x.id)) {
        assert Fused(text, vector, k, x.id) in all;
        var i :| 0 <= i < |all| && all[i] == Fused(text, vector, k, x.id);
        assert keys[i] == x;
      }
    }
  }

  lemma {:induction false} KeysSorted<S(!new)>(all: seq<FusedHit<S>>, keys: seq<Key>)
    requires Sorted(all, ByRank) && keys == Keys(all)
    ensures Sorted(keys, Itself)
    decreases |all|
  {
    if all != [] {
      assert keys[1..] == Keys(all[1..]);
      KeysSorted(all[1..], keys[1..]);
      forall x | x in keys[1..] ensures Leq(Itself(keys[0]), Itself(x)) {
        var i :| 0 <= i < |keys[1..]| && keys[1..][i] == x;
        assert all[1..][i] in all[1..];
      }
    }
  }

  lemma CutKeys<S>(all: seq<FusedHit<S>>, cut: nat)
    requires cut <= |all|
    ensures Keys(all[..cut]) == Keys(all)[..cut]
  {
  }

  lemma SameVotesSameRanking<S(!new), R(!new)>(text: seq<MemoryHit<S>>, vector: seq<MemoryHit<S>>,
                                              text': seq<MemoryHit<R>>, vector': seq<MemoryHit<R>>, k: real)
    requires k >= 0.0
    requires forall id :: Supplied(text, vector, id) <==> Supplied(text', vector', id)
    requires forall id :: ByRank(Fused(text, vector, k, id)) == ByRank(Fused(text', vector', k, id))
    ensures Keys(Ranking(text, vector, k)) == Keys(Ranking(text', vector', k))
  {
    var keys, keys' := Keys(Ranking(text, vector, k)), Keys(Ranking(text', vector', k));
    KeysAre(text, vector, k);
    KeysAre(text', vector', k);
    SortedMembersUnique(keys, keys', Itself);
  }

  /** Two pairs of rankings that supply the same identifiers with the same votes fuse alike. */
  lemma SameVotesSameKeys<S(!new), R(!new)>(text: seq<MemoryHit<S>>, vector: seq<MemoryHit<S>>,
                                           text': seq<MemoryHit<R>>, vector': seq<MemoryHit<R>>, k: Damping, limit: nat)
    requires forall id :: Supplied(text, vector, id) <==> Supplied(text', vector', id)
    requires forall id :: ByRank(Fused(text, vector, Constant(k), id)) == ByRank(Fused(text', vector', Constant(k), id))
    ensures Keys(Fuse(text, vector, k, limit)) == Keys(Fuse(text', vector', k, limit))
  {
    var c := Constant(k);
    var all, all' := Ranking(text, vector, c), Ranking(text', vector', c);
    SameVotesSameRanking(text, vector, text', vector', c);
    assert |all| == |Keys(all)| == |Keys(all')| == |all'|;
    if limit <= |all| {
      CutKeys(all, limit);
      CutKeys(all', limit);
    }
  }

  predicate SameIds<S, R>(rows: seq<MemoryHit<S>>, rows': seq<MemoryHit<R>>) {
    |rows| == |rows'| && forall i | 0 <= i < |rows| :: rows[i].id == rows'[i].id
  }

  lemma {:induction false} SamePositions<S, R>(rows: seq<MemoryHit<S>>, rows': seq<MemoryHit<R>>, id: Bytes)
    requires SameIds(rows, rows')
    ensures FirstPosition(rows, id) == FirstPosition(rows', id)
    decreases |rows|
  {
    if rows != [] { SamePositions(rows[..|rows| - 1], rows'[..|rows'| - 1], id); }
  }

  /** Raw scores, even of another type, change no identifier, no order, no fused score and no rank. */
  lemma RawScoresIrrelevant<S(!new), R(!new)>(text: seq<MemoryHit<S>>, vector: seq<MemoryHit<S>>,
                                             text': seq<MemoryHit<R>>, vector': seq<MemoryHit<R>>, k: Damping, limit: nat)
    requires SameIds(text, text') && SameIds(vector, vector')
    ensures var r, r' := Fuse(text, vector, k, limit), Fuse(text', vector', k, limit);
            |r| == |r'| && forall i | 0 <= i < |r| ::
              r[i].id == r'[i].id && r[i].rrfScore == r'[i].rrfScore &&
              r[i].textRank == r'[i].textRank && r[i].vectorRank == r'[i].vectorRank
  {
    var c := Constant(k);
    var r, r' := Fuse(text, vector, k, limit), Fuse(text', vector', k, limit);
    forall id ensures FirstPosition(text, id) == FirstPosition(text', id) && FirstPosition(vector, id) == FirstPosition(vector', id) {
      SamePositions(text, text', id);
      SamePositions(vector, vector', id);
    }
    SameVotesSameKeys(text, vector, text', vector', k, limit);
    assert |r| == |Keys(r)| == |Keys(r')| == |r'|;
    RankingHits(text, vector, c);
    RankingHits(text', vector', c);
    forall i | 0 <= i < |r|
      ensures r[i].id == r'[i].id && r[i].rrfScore == r'[i].rrfScore &&
              r[i].textRank == r'[i].textRank && r[i].vectorRank == r'[i].vectorRank
    {
      assert Keys(r)[i] == Keys(r')[i];
      assert r[i] in Ranking(text, vector, c) && r'[i] in Ranking(text', vector', c);
    }
  }

  /** Exchanging the two rankings keeps every identifier, its place and its fused score. */
  lemma SwapKeeps<S(!new)>(text: seq<MemoryHit<S>>, vector: seq<MemoryHit<S>>, k: Damping, limit: nat)
    ensures var r, r' := Fuse(text, vector, k, limit), Fuse(vector, text, k, limit);
            |r| == |r'| && forall i | 0 <= i < |r| :: r[i].id == r'[i].id && r[i].rrfScore == r'[i].rrfScore
  {
    SameVotesSameKeys(text, vector, vector, text, k, limit);
    var r, r' := Fuse(text, vector, k, limit), Fuse(vector, text, k, limit);
    assert |r| == |Keys(r)| == |Keys(r')| == |r'|;
    forall i | 0 <= i < |r| ensures r[i].id == r'[i].id && r[i].rrfScore == r'[i].rrfScore {
      assert Keys(r)[i] == Keys(r')[i];
    }
  }
}
