/**
 The rows of a live query: the server's diff of two result sets, and the client's fold of
 that diff into the rows it shows.

 Only the identity fields of a row matter to the fold; the rest of it is an opaque body.
 */
module LiveRows {
  import opened Options

  /** A field that is present holds a string or some other JSON value. */
  datatype IdValue = Text(s: string) | Other

  datatype Row = Row(entityId: Option<IdValue>, uid: Option<IdValue>, id: Option<IdValue>, body: string)

  function OrElse(a: Option<IdValue>, b: Option<IdValue>): Option<IdValue> {
    if a.Some? then a else b
  }

  // ----- the client -----

  /** A row key: a string, and the empty one counts as none. */
  function AsKey(id: Option<IdValue>): Option<string> {
    match id
    case Some(Text(s)) => if s == "" then None else Some(s)
    case _ => None
  }

  /** The identity of a row as the client reads it. */
  function Key(r: Row): Option<string> {
    AsKey(OrElse(r.uid, OrElse(r.id, r.entityId)))
  }

  /** Normalising a row moves the first of entity_id, _id and id into the public fields. */
  function Normal(r: Row): Row {
    var id := OrElse(r.entityId, OrElse(r.uid, r.id));
    r.(id := id, uid := if r.entityId.Some? || r.uid.Some? then id else None)
  }

  function Normals(rows: seq<Row>): seq<Row> {
    seq(|rows|, i requires 0 <= i < |rows| => Normal(rows[i]))
  }

  datatype Diff = Diff(added: seq<Row>, removed: seq<Row>, updated: seq<Row>)

  predicate HasKey(rows: seq<Row>, k: Option<string>) {
    k.Some? && exists i | 0 <= i < |rows| :: Key(rows[i]) == k
  }

  /** Rows whose key was removed go; a row without a key stays. */
  function Kept(rows: seq<Row>, removed: seq<Row>): seq<Row> {
    if rows == [] then []
    else (if HasKey(removed, Key(rows[0])) then [] else [rows[0]]) + Kept(rows[1..], removed)
  }

  /** The row of the update with the same key, the last one if there are several, or the row itself. */
  function Replaced(r: Row, updated: seq<Row>): Row
    decreases |updated|
  {
    if updated == [] || Key(r).None? then r
    else
      var last := Normal(updated[|updated| - 1]);
      if Key(last) == Key(r) then last else Replaced(r, updated[..|updated| - 1])
  }

  function ReplaceAll(rows: seq<Row>, updated: seq<Row>): seq<Row> {
    seq(|rows|, i requires 0 <= i < |rows| => Replaced(rows[i], updated))
  }

  function Push(rows: seq<Row>, d: Diff): seq<Row> {
    ReplaceAll(Kept(rows, d.removed), d.updated) + Normals(d.added)
  }

  /** The set of keys that the fold removes by: rows without a key name none. */
  ghost predicate KeySet(keys: set<string>, rows: seq<Row>) {
    forall k :: k in keys <==> HasKey(rows, Some(k))
  }

  /** The map of normalised rows that the fold updates by: a later row of the same key replaces an earlier one. */
  ghost predicate RowMap(rows: map<string, Row>, updated: seq<Row>) {
    forall r: Row :: Chosen(r, rows) == Replaced(r, updated)
  }

  /** The row of the map with the same key, or the row itself. */
  function Chosen(r: Row, rows: map<string, Row>): Row {
    var k := Key(r);
    if k.Some? && k.value in rows then rows[k.value] else r
  }

  class ActiveRows {
    var rows: seq<Row>

    constructor (initial: seq<Row>)
      ensures rows == Normals(initial)
    {
      rows := Normals(initial);
    }

    method ApplyPush(d: Diff)
      modifies this
      ensures rows == Push(old(rows), d)
    {
      var removed := KeysRemoved(d.removed);
      var updated := RowsUpdated(d.updated);
      var kept := FilterRows(rows, removed, d.removed);
      var next := MapRows(kept, updated, d.updated);
      var added := Normals(d.added);
      rows := next + added;
    }
  }

  method KeysRemoved(removed: seq<Row>) returns (keys: set<string>)
    ensures KeySet(keys, removed)
  {
    keys := {};
    for i := 0 to |removed|
      invariant KeySet(keys, removed[..i])
    {
      var k := Key(removed[i]);
      if k.Some? { keys := keys + {k.value}; }
      OneMoreKey(removed[..i], removed[i], removed[..i + 1]);
    }
    assert removed[..|removed|] == removed;
  }

  lemma OneMoreKey(rows: seq<Row>, r: Row, more: seq<Row>)
    requires more == rows + [r]
    ensures forall k :: HasKey(more, Some(k)) <==> HasKey(rows, Some(k)) || Key(r) == Some(k)
  {
    assert more[|rows|] == r;
    assert forall i | 0 <= i < |rows| :: more[i] == rows[i];
  }

  method RowsUpdated(updated: seq<Row>) returns (rows: map<string, Row>)
    ensures RowMap(rows, updated)
  {
    rows := map[];
    for i := 0 to |updated|
      invariant RowMap(rows, updated[..i])
    {
      var row := Normal(updated[i]);
      var k := Key(row);
      ghost var before := rows;
      if k.Some? { rows := rows[k.value := row]; }
      forall r: Row ensures Chosen(r, rows) == Replaced(r, updated[..i + 1]) {
        assert updated[..i + 1][..i] == updated[..i] && updated[..i + 1][i] == updated[i];
        assert Chosen(r, before) == Replaced(r, updated[..i]);
      }
    }
    assert updated[..|updated|] == updated;
  }

  lemma KeptStep(front: seq<Row>, r: Row, rest: seq<Row>, rows: seq<Row>, removed: set<string>, gone: seq<Row>)
    requires rows == [r] + rest && KeySet(removed, gone)
    ensures var stays := Key(r).None? || Key(r).value !in removed;
            front + Kept(rows, gone) == (if stays then front + [r] else front) + Kept(rest, gone)
  {
    assert rows[1..] == rest;
    assert front + ([r] + Kept(rest, gone)) == (front + [r]) + Kept(rest, gone);
    assert [] + Kept(rest, gone) == Kept(rest, gone);
  }

  method FilterRows(rows: seq<Row>, removed: set<string>, ghost gone: seq<Row>) returns (kept: seq<Row>)
    requires KeySet(removed, gone)
    ensures kept == Kept(rows, gone)
  {
    kept := [];
    var rest := rows;
    while rest != []
      invariant kept + Kept(rest, gone) == Kept(rows, gone)
      decreases |rest|
    {
      hide Kept, KeySet, Key, HasKey;
      var r, later := rest[0], rest[1..];
      KeptStep(kept, r, later, rest, removed, gone);
      var k := Key(r);
      if k.None? || k.value !in removed { kept := kept + [r]; }
      rest := later;
    }
    assert kept + [] == kept;
  }

  method MapRows(kept: seq<Row>, updated: map<string, Row>, ghost d: seq<Row>) returns (next: seq<Row>)
    requires RowMap(updated, d)
    ensures next == ReplaceAll(kept, d)
  {
    next := [];
    for i := 0 to |kept|
      invariant |next| == i && forall j | 0 <= j < i :: next[j] == Replaced(kept[j], d)
    {
      next := next + [Chosen(kept[i], updated)];
    }
  }

  /** Normalising keeps the key of a row unless an entity_id field shadows a different identity. */
  lemma NormalKeepsKey(r: Row)
    ensures Key(Normal(r)) == Key(r) <==>
              r.entityId.None? || OrElse(r.uid, r.id).None? || AsKey(r.entityId) == AsKey(OrElse(r.uid, r.id))
  {
  }

  // ----- the server -----

  /** The identity of a row as the diff engine reads it. */
  function RowId(r: Row): Option<string> {
    match r.uid
    case Some(Text(s)) => Some(s)
    case _ => match r.id case Some(Text(s)) => Some(s) case _ => None
  }

  predicate HasId(rows: seq<Row>, id: Option<string>) {
    id.Some? && exists i | 0 <= i < |rows| :: RowId(rows[i]) == id
  }

  function Added(old_: seq<Row>, new_: seq<Row>): seq<Row> {
    if new_ == [] then []
    else (if RowId(new_[0]).Some? && !HasId(old_, RowId(new_[0])) then [new_[0]] else []) + Added(old_, new_[1..])
  }

  function Find(rows: seq<Row>, id: Option<string>): Option<Row> {
    if rows == [] then None else if RowId(rows[0]) == id then Some(rows[0]) else Find(rows[1..], id)
  }

  function Updated(old_: seq<Row>, new_: seq<Row>): seq<Row> {
    if new_ == [] then []
    else
      var o := Find(old_, RowId(new_[0]));
      (if RowId(new_[0]).Some? && o.Some? && o.value != new_[0] then [new_[0]] else []) + Updated(old_, new_[1..])
  }

  function DiffOf(old_: seq<Row>, new_: seq<Row>): Diff {
    Diff(Added(old_, new_), Added(new_, old_), Updated(old_, new_))
  }

  /** A row as the server builds it: `_id` is a non-empty string, no attribute shadows the identity. */
  predicate ServerRow(r: Row) {
    r.entityId.None? && r.uid.Some? && r.uid.value.Text? && r.uid.value.s != ""
  }

  function IdOf(r: Row): string
    requires ServerRow(r)
  {
    r.uid.value.s
  }

  /** A result set: server rows with distinct ids. */
  ghost predicate Result(rows: seq<Row>) {
    (forall r | r in rows :: ServerRow(r)) &&
    forall i, j | 0 <= i < j < |rows| :: IdOf(rows[i]) != IdOf(rows[j])
  }

  lemma ServerKeys(r: Row)
    requires ServerRow(r)
    ensures RowId(r) == Key(r) == Key(Normal(r)) == Some(IdOf(r))
  {
  }

  /** A row of the server is shown as it came, with its identity in the public `id` field as well. */
  lemma ServerRowShown(r: Row)
    requires ServerRow(r)
    ensures Normal(r) == Row(None, r.uid, r.uid, r.body)
  {
  }

  /** The first identity a row has, in the order `_id`, `id`, `entity_id`, is missing, no string, or empty. */
  predicate Keyless(r: Row) {
    var id := if r.uid.Some? then r.uid else if r.id.Some? then r.id else r.entityId;
    id.None? || id.value.Other? || id.value.s == ""
  }

  /** No push removes or replaces a row without a key. */
  lemma KeylessRowsStay(rows: seq<Row>, d: Diff, r: Row)
    requires r in rows && Keyless(r)
    ensures r in Push(rows, d)
  {
    KeptMembers(rows, d.removed);
    var kept := Kept(rows, d.removed);
    var i :| 0 <= i < |kept| && kept[i] == r;
    assert ReplaceAll(kept, d.updated)[i] == r;
    assert Push(rows, d)[i] == r;
  }

  // ----- the fold follows the server -----

  ghost predicate DistinctKeys(rows: seq<Row>) {
    forall i, j | 0 <= i < j < |rows| :: Key(rows[i]) != Key(rows[j])
  }

  /** The rows are exactly the normalised rows of the result, each under its own key, in any order. */
  ghost predicate Shows(rows: seq<Row>, result: seq<Row>) {
    DistinctKeys(rows) && forall x :: x in rows <==> x in Normals(result)
  }

  lemma NormalsMembers(rows: seq<Row>)
    ensures forall x :: x in Normals(rows) <==> exists r :: r in rows && x == Normal(r)
  {
    forall r | r in rows ensures Normal(r) in Normals(rows) {
      var i :| 0 <= i < |rows| && rows[i] == r;
      assert Normals(rows)[i] == Normal(r);
    }
  }

  lemma {:induction false} AddedMembers(old_: seq<Row>, new_: seq<Row>)
    ensures forall r :: r in Added(old_, new_) <==> r in new_ && RowId(r).Some? && !HasId(old_, RowId(r))
  {
    if new_ != [] {
      AddedMembers(old_, new_[1..]);
      assert new_ == [new_[0]] + new_[1..];
    }
  }

  lemma {:induction false} UpdatedMembers(old_: seq<Row>, new_: seq<Row>)
    ensures forall r :: r in Updated(old_, new_) <==>
              r in new_ && RowId(r).Some? && Find(old_, RowId(r)).Some? && Find(old_, RowId(r)).value != r
  {
    if new_ != [] {
      UpdatedMembers(old_, new_[1..]);
      assert new_ == [new_[0]] + new_[1..];
    }
  }

  lemma {:induction false} KeptMembers(rows: seq<Row>, removed: seq<Row>)
    ensures forall x :: x in Kept(rows, removed) <==> x in rows && !HasKey(removed, Key(x))
  {
    if rows != [] {
      KeptMembers(rows[1..], removed);
      assert rows == [rows[0]] + rows[1..];
    }
  }

  lemma {:induction false} KeptDistinct(rows: seq<Row>, removed: seq<Row>)
    requires DistinctKeys(rows)
    ensures DistinctKeys(Kept(rows, removed))
  {
    if rows != [] {
      var tail, rest := rows[1..], Kept(rows[1..], removed);
      KeptDistinct(tail, removed);
      KeptMembers(tail, removed);
      forall x | x in rest ensures Key(x) != Key(rows[0]) {
        var j :| 0 <= j < |tail| && tail[j] == x;
        assert rows[j + 1] == x;
      }
      var kept := [rows[0]] + rest;
      forall i, j | 0 <= i < j < |kept| ensures Key(kept[i]) != Key(kept[j]) {
        assert kept[j] == rest[j - 1];
      }
    }
  }

  lemma TailResult(rows: seq<Row>)
    requires Result(rows) && rows != []
    ensures ServerRow(rows[0]) && Result(rows[1..])
    ensures forall r | r in rows[1..] :: IdOf(r) != IdOf(rows[0])
  {
    assert rows[0] in rows && forall r | r in rows[1..] :: r in rows;
    forall r | r in rows[1..] ensures IdOf(r) != IdOf(rows[0]) {
      var j :| 0 <= j < |rows[1..]| && rows[1..][j] == r;
      assert rows[j + 1] == r;
    }
  }

  lemma {:induction false} FindOnly(rows: seq<Row>, r: Row)
    requires Result(rows) && r in rows
    ensures Find(rows, RowId(r)) == Some(r)
  {
    TailResult(rows);
    ServerKeys(rows[0]);
    if rows[0] != r {
      assert rows == [rows[0]] + rows[1..];
      FindOnly(rows[1..], r);
      ServerKeys(r);
    }
  }

  lemma {:induction false} ReplacedKeepsKey(x: Row, updated: seq<Row>)
    ensures Key(Replaced(x, updated)) == Key(x)
    decreases |updated|
  {
    if updated != [] { ReplacedKeepsKey(x, updated[..|updated| - 1]); }
  }

  /** Replacing picks the one update of the key, when every update of that key is the same row. */
  lemma {:induction false} ReplacedBy(x: Row, updated: seq<Row>, r: Row)
    requires Key(x).Some?
    requires forall u | u in updated && Key(Normal(u)) == Key(x) :: u == r
    ensures Replaced(x, updated) == if r in updated && Key(Normal(r)) == Key(x) then Normal(r) else x
    decreases |updated|
  {
    if updated != [] {
      var n := |updated| - 1;
      assert updated == updated[..n] + [updated[n]];
      ReplacedBy(x, updated[..n], r);
    }
  }

  lemma SameId(rows: seq<Row>, a: Row, b: Row)
    requires Result(rows) && a in rows && b in rows && IdOf(a) == IdOf(b)
    ensures a == b
  {
    var i :| 0 <= i < |rows| && rows[i] == a;
    var j :| 0 <= j < |rows| && rows[j] == b;
  }

  lemma ByMember(rows: seq<Row>, id: string)
    requires forall r | r in rows :: ServerRow(r)
    ensures HasKey(rows, Some(id)) <==> exists r :: r in rows && IdOf(r) == id
    ensures HasId(rows, Some(id)) <==> exists r :: r in rows && IdOf(r) == id
  {
    forall i | 0 <= i < |rows| ensures Key(rows[i]) == RowId(rows[i]) == Some(IdOf(rows[i])) {
      assert rows[i] in rows;
    }
  }

  lemma RemovedKey(old_: seq<Row>, new_: seq<Row>, q: Row)
    requires Result(old_) && Result(new_) && q in old_
    ensures HasKey(DiffOf(old_, new_).removed, Key(Normal(q))) <==> !exists r :: r in new_ && IdOf(r) == IdOf(q)
  {
    var removed, id := Added(new_, old_), IdOf(q);
    AddedMembers(new_, old_);
    ByMember(removed, id);
    ByMember(new_, id);
    forall r | r in removed && IdOf(r) == id ensures r == q { SameId(old_, r, q); }
  }

  /** A row that stays is shown as the server's new row of the same id. */
  lemma ReplacedRow(old_: seq<Row>, new_: seq<Row>, q: Row, r: Row)
    requires Result(old_) && Result(new_) && q in old_ && r in new_ && IdOf(q) == IdOf(r)
    ensures Replaced(Normal(q), DiffOf(old_, new_).updated) == Normal(r)
  {
    var updated := Updated(old_, new_);
    UpdatedMembers(old_, new_);
    FindOnly(old_, q);
    forall u | u in updated && Key(Normal(u)) == Key(Normal(q)) ensures u == r {
      SameId(new_, u, r);
    }
    ReplacedBy(Normal(q), updated, r);
  }

  lemma AddedKey(old_: seq<Row>, new_: seq<Row>, r: Row)
    requires Result(old_) && Result(new_) && r in new_
    ensures r in DiffOf(old_, new_).added <==> !exists q :: q in old_ && IdOf(q) == IdOf(r)
  {
    AddedMembers(old_, new_);
    ByMember(old_, IdOf(r));
  }

  /** The shown rows that stay, brought up to date. */
  function Stayed(rows: seq<Row>, old_: seq<Row>, new_: seq<Row>): seq<Row> {
    ReplaceAll(Kept(rows, DiffOf(old_, new_).removed), DiffOf(old_, new_).updated)
  }

  lemma StayedMembers(rows: seq<Row>, old_: seq<Row>, new_: seq<Row>, x: Row)
    requires Result(old_) && Result(new_) && Shows(rows, old_)
    ensures x in Stayed(rows, old_, new_) <==>
            exists q, r :: q in old_ && r in new_ && IdOf(q) == IdOf(r) && x == Normal(r)
  {
    var d := DiffOf(old_, new_);
    var kept, stayed := Kept(rows, d.removed), Stayed(rows, old_, new_);
    KeptMembers(rows, d.removed);
    NormalsMembers(old_);
    if x in stayed {
      var i :| 0 <= i < |stayed| && stayed[i] == x;
      assert kept[i] in kept;
      var q :| q in old_ && kept[i] == Normal(q);
      RemovedKey(old_, new_, q);
      var r :| r in new_ && IdOf(r) == IdOf(q);
      ReplacedRow(old_, new_, q, r);
    }
    if q, r :| q in old_ && r in new_ && IdOf(q) == IdOf(r) && x == Normal(r) {
      RemovedKey(old_, new_, q);
      assert Normal(q) in kept;
      var i :| 0 <= i < |kept| && kept[i] == Normal(q);
      ReplacedRow(old_, new_, q, r);
      assert stayed[i] == x;
    }
  }

  lemma StayedDistinct(rows: seq<Row>, old_: seq<Row>, new_: seq<Row>)
    requires Shows(rows, old_)
    ensures DistinctKeys(Stayed(rows, old_, new_))
  {
    var d := DiffOf(old_, new_);
    var kept := Kept(rows, d.removed);
    KeptDistinct(rows, d.removed);
    forall i | 0 <= i < |kept| ensures Key(Replaced(kept[i], d.updated)) == Key(kept[i]) {
      ReplacedKeepsKey(kept[i], d.updated);
    }
  }

  lemma {:induction false} AddedDistinct(old_: seq<Row>, new_: seq<Row>)
    requires Result(new_)
    ensures Result(Added(old_, new_))
  {
    if new_ != [] {
      TailResult(new_);
      AddedDistinct(old_, new_[1..]);
      AddedMembers(old_, new_[1..]);
      var rest := Added(old_, new_[1..]);
      var longer := [new_[0]] + rest;
      forall i, j | 0 <= i < j < |longer| && ServerRow(longer[i]) && ServerRow(longer[j])
        ensures IdOf(longer[i]) != IdOf(longer[j])
      {
        assert longer[j] == rest[j - 1] && longer[j] in rest;
      }
    }
  }

  lemma ResultDistinct(rows: seq<Row>)
    requires Result(rows)
    ensures DistinctKeys(Normals(rows))
    ensures forall r | r in rows :: Key(Normal(r)) == Some(IdOf(r))
  {
    forall i | 0 <= i < |rows| ensures Key(Normals(rows)[i]) == Some(IdOf(rows[i])) {
      assert rows[i] in rows;
    }
  }

  lemma JoinDistinct(a: seq<Row>, b: seq<Row>)
    requires DistinctKeys(a) && DistinctKeys(b)
    requires forall x, y | x in a && y in b :: Key(x) != Key(y)
    ensures DistinctKeys(a + b)
  {
    var s := a + b;
    forall i, j | 0 <= i < j < |s| ensures Key(s[i]) != Key(s[j]) {
      if i < |a| <= j {
        assert a[i] in a && b[j - |a|] in b;
      }
    }
  }

  /** Folding the diff from the result the client shows to the next one makes the client show the next one. */
  lemma PushShows(rows: seq<Row>, old_: seq<Row>, new_: seq<Row>)
    requires Result(old_) && Result(new_) && Shows(rows, old_)
    ensures Shows(Push(rows, DiffOf(old_, new_)), new_)
  {
    var stayed, added := Stayed(rows, old_, new_), Normals(DiffOf(old_, new_).added);
    forall x ensures x in stayed + added <==> x in Normals(new_) {
      StayedMembers(rows, old_, new_, x);
      NormalsMembers(new_);
      NormalsMembers(DiffOf(old_, new_).added);
      AddedMembers(old_, new_);
      if r :| r in new_ && x == Normal(r) { AddedKey(old_, new_, r); }
    }
    StayedDistinct(rows, old_, new_);
    AddedDistinct(old_, new_);
    ResultDistinct(DiffOf(old_, new_).added);
    forall x, y | x in stayed && y in added ensures Key(x) != Key(y) {
      StayedMembers(rows, old_, new_, x);
      NormalsMembers(DiffOf(old_, new_).added);
      AddedMembers(old_, new_);
      var q, r :| q in old_ && r in new_ && IdOf(q) == IdOf(r) && x == Normal(r);
      var u :| u in DiffOf(old_, new_).added && y == Normal(u);
      AddedKey(old_, new_, u);
      ServerKeys(u);
      ServerKeys(r);
    }
    JoinDistinct(stayed, added);
  }

  // ----- order -----

  function KeysOf(rows: seq<Row>): seq<Option<string>> {
    seq(|rows|, i requires 0 <= i < |rows| => Key(rows[i]))
  }

  /** The keys, in their order, that are not among the removed rows. */
  function Surviving(keys: seq<Option<string>>, removed: seq<Row>): seq<Option<string>> {
    if keys == [] then []
    else (if HasKey(removed, keys[0]) then [] else [keys[0]]) + Surviving(keys[1..], removed)
  }

  lemma {:induction false} KeptKeys(rows: seq<Row>, removed: seq<Row>)
    ensures KeysOf(Kept(rows, removed)) == Surviving(KeysOf(rows), removed)
  {
    if rows != [] {
      KeptKeys(rows[1..], removed);
      assert KeysOf(rows)[1..] == KeysOf(rows[1..]);
    }
  }

  /** Whatever the diff, rows that stay keep their relative order and added rows come last. */
  lemma PushOrder(rows: seq<Row>, d: Diff)
    ensures KeysOf(Push(rows, d)) == Surviving(KeysOf(rows), d.removed) + KeysOf(Normals(d.added))
  {
    var kept := Kept(rows, d.removed);
    KeptKeys(rows, d.removed);
    forall i | 0 <= i < |kept| ensures Key(Replaced(kept[i], d.updated)) == Key(kept[i]) {
      ReplacedKeepsKey(kept[i], d.updated);
    }
    assert KeysOf(ReplaceAll(kept, d.updated)) == KeysOf(kept);
  }

  // ----- a session of pushes -----

  /** One change on the server: the diff against its last snapshot is sent unless it is empty. */
  function Notify(rows: seq<Row>, snapshot: seq<Row>, new_: seq<Row>): seq<Row> {
    var d := DiffOf(snapshot, new_);
    if d == Diff([], [], []) then rows else Push(rows, d)
  }

  function Session(rows: seq<Row>, snapshot: seq<Row>, results: seq<seq<Row>>): seq<Row>
    decreases |results|
  {
    if results == [] then rows else Session(Notify(rows, snapshot, results[0]), results[0], results[1..])
  }

  lemma {:induction false} NothingKept(rows: seq<Row>)
    ensures Kept(rows, []) == rows
  {
    if rows != [] { NothingKept(rows[1..]); }
  }

  lemma EmptyPush(rows: seq<Row>)
    ensures Push(rows, Diff([], [], [])) == rows
  {
    NothingKept(rows);
  }

  /** When the server's snapshot is what the client shows, the client shows the latest result after every push. */
  lemma {:induction false} SessionShows(rows: seq<Row>, snapshot: seq<Row>, results: seq<seq<Row>>)
    requires Shows(rows, snapshot) && Result(snapshot) && forall r | r in results :: Result(r)
    ensures Shows(Session(rows, snapshot, results), if results == [] then snapshot else results[|results| - 1])
    decreases |results|
  {
    if results != [] {
      var new_, rest := results[0], results[1..];
      assert new_ in results && forall r | r in rest :: r in results;
      PushShows(rows, snapshot, new_);
      EmptyPush(rows);
      SessionShows(Notify(rows, snapshot, new_), new_, rest);
    }
  }

  lemma {:induction false} AddedAll(new_: seq<Row>)
    requires Result(new_)
    ensures Added([], new_) == new_ && Updated([], new_) == [] && Added(new_, []) == []
  {
    if new_ != [] {
      TailResult(new_);
      AddedAll(new_[1..]);
      assert [new_[0]] + new_[1..] == new_;
    }
  }

  lemma ShownTwice(a: seq<Row>, b: seq<Row>)
    requires a != [] && a[0] in b
    ensures !DistinctKeys(a + b)
  {
    var j :| 0 <= j < |b| && b[j] == a[0];
    assert (a + b)[0] == (a + b)[|a| + j];
  }

  /**
   The server keeps no snapshot when it answers a subscription, so its first diff is taken
   against the empty result while the client already shows the initial rows. The first push
   leaves the client with the server's rows exactly when the initial result was empty.
   */
  lemma FirstPush(initial: seq<Row>, new_: seq<Row>)
    requires Result(initial) && Result(new_)
    ensures Shows(Notify(Normals(initial), [], new_), new_) <==> initial == []
  {
    var rows, shown := Normals(initial), Normals(initial) + Normals(new_);
    AddedAll(new_);
    NothingKept(rows);
    assert ReplaceAll(rows, []) == rows;
    assert Notify(rows, [], new_) == shown;
    if initial == [] {
      assert shown == Normals(new_);
      ResultDistinct(new_);
    } else {
      assert shown[0] == rows[0] && shown[0] in shown;
      if rows[0] in Normals(new_) { ShownTwice(rows, Normals(new_)); }
    }
  }

  /** From a subscription with an empty initial result on, the client shows the latest result after every push. */
  lemma SessionFromEmpty(results: seq<seq<Row>>)
    requires forall r | r in results :: Result(r)
    ensures Shows(Session(Normals([]), [], results), if results == [] then [] else results[|results| - 1])
  {
    SessionShows(Normals([]), [], results);
  }
}
