/**
 The offline queue of the sync engine and its replay, cut into steps where the code awaits:
 between any two steps of a replay the application may enqueue, remove, or call it again.
 */
module SyncQueue {
  import opened Text
  import opened Ordering

  const MAX_REPLAY_ATTEMPTS: nat := 5

  datatype Entry = Entry(id: Bytes, createdAt: int, attempts: nat)

  /** What became of one submission: a rejection by the server is final for it, a transport failure is not. */
  datatype Answer = Accepted | Rejected | Unreachable

  /** Where a replay stands: reading the queue, waiting for an answer about the first pending entry, or storing it. */
  datatype Phase = Idle | Reading | Sending(pending: seq<Entry>) | Writing(pending: seq<Entry>, accepted: bool)

  /** What has happened so far: entries issued, gone for each reason, rejections and acceptances received. */
  datatype History = History(
    issued: set<Bytes>, delivered: set<Bytes>, discarded: set<Bytes>, removed: set<Bytes>,
    rejections: map<Bytes, nat>, acceptances: multiset<Bytes>, returned: nat)

  datatype State = State(store: map<Bytes, Entry>, phase: Phase, replayed: nat, history: History)

  const START := State(map[], Idle, 0, History({}, {}, {}, {}, map[], multiset{}, 0))

  // ----- reading the queue -----

  function ByCreation(e: Entry): Key {
    Key(e.createdAt as real, e.id)
  }

  ghost predicate DistinctIds(q: seq<Entry>) {
    forall i, j | 0 <= i < j < |q| :: q[i].id != q[j].id
  }

  /** What the index by creation time returns: every stored entry once, oldest first. */
  ghost predicate Listing(store: map<Bytes, Entry>, q: seq<Entry>) {
    && Sorted(q, ByCreation)
    && DistinctIds(q)
    && (forall e | e in q :: e.id in store && store[e.id] == e)
    && (forall id | id in store :: store[id] in q)
  }

  predicate Keyed(store: map<Bytes, Entry>) {
    forall id | id in store :: store[id].id == id
  }

  // ----- steps -----

  datatype Event =
    | DoEnqueue(id: Bytes, at: int)
    | DoRemove(ids: set<Bytes>)
    | DoBegin
    | DoRead(queue: seq<Entry>)
    | DoAnswer(answer: Answer)
    | DoWrite

  function Finish(s: State): State {
    s.(phase := Idle, replayed := 0, history := s.history.(returned := s.history.returned + s.replayed))
  }

  function Proceed(s: State, pending: seq<Entry>): State {
    if pending == [] then Finish(s) else s.(phase := Sending(pending))
  }

  function EnqueueEntry(s: State, id: Bytes, at: int): State {
    s.(store := s.store[id := Entry(id, at, 0)],
       history := s.history.(issued := s.history.issued + {id}, rejections := s.history.rejections[id := 0]))
  }

  function Remove(s: State, ids: set<Bytes>): State {
    s.(store := s.store - ids, history := s.history.(removed := s.history.removed + (ids * s.store.Keys)))
  }

  function Hear(s: State, pending: seq<Entry>, answer: Answer): State
    requires pending != [] && pending[0].id in s.history.rejections
  {
    var h, id := s.history, pending[0].id;
    match answer
    case Accepted => s.(phase := Writing(pending, true), history := h.(acceptances := h.acceptances + multiset{id}))
    case Rejected =>
      s.(phase := Writing(pending, false), history := h.(rejections := h.rejections[id := h.rejections[id] + 1]))
    case Unreachable => Finish(s)
  }

  /** The stored queue once the answer about `e` is known: gone, or put back with one more attempt. */
  function Settle(store: map<Bytes, Entry>, e: Entry, accepted: bool): map<Bytes, Entry> {
    if accepted || e.attempts + 1 >= MAX_REPLAY_ATTEMPTS then store - {e.id}
    else store[e.id := e.(attempts := e.attempts + 1)]
  }

  function Store(s: State, e: Entry, accepted: bool): State {
    var h, settled := s.history, s.(store := Settle(s.store, e, accepted));
    if accepted then settled.(replayed := s.replayed + 1, history := h.(delivered := h.delivered + {e.id}))
    else if e.attempts + 1 >= MAX_REPLAY_ATTEMPTS then
      settled.(history := h.(discarded := h.discarded + {e.id}))
    else settled
  }

  ghost function Next(s: State, e: Event): State {
    match e
    case DoEnqueue(id, at) => if id in s.history.issued then s else EnqueueEntry(s, id, at)
    case DoRemove(ids) => Remove(s, ids)
    case DoBegin => if s.phase == Idle then s.(phase := Reading, replayed := 0) else s
    case DoRead(queue) => if s.phase == Reading && Listing(s.store, queue) then Proceed(s, queue) else s
    case DoAnswer(answer) =>
      if s.phase.Sending? && s.phase.pending != [] && s.phase.pending[0].id in s.history.rejections
      then Hear(s, s.phase.pending, answer) else s
    case DoWrite =>
      if s.phase.Writing? && s.phase.pending != []
      then Proceed(Store(s, s.phase.pending[0], s.phase.accepted), s.phase.pending[1..]) else s
  }

  ghost function Run(s: State, events: seq<Event>): State
    decreases |events|
  {
    if events == [] then s else Run(Next(s, events[0]), events[1..])
  }

  ghost predicate Reachable(s: State) {
    exists events: seq<Event> :: Run(START, events) == s
  }

  // ----- what every step keeps -----

  function Pending(s: State): seq<Entry> {
    if s.phase.Sending? || s.phase.Writing? then s.phase.pending else []
  }

  /** The answer about this entry is known and not yet stored. */
  predicate Unstored(s: State, id: Bytes, accepted: bool) {
    s.phase.Writing? && s.phase.pending != [] && s.phase.pending[0].id == id && s.phase.accepted == accepted
  }

  /** One identifier: at most one fate, attempts and rejections in step, accepted at most once. */
  predicate EntryOk(s: State, id: Bytes) {
    var h := s.history;
    && (id in h.issued <==> id in h.rejections)
    && (id in s.store ==>
          id in h.issued && id !in h.delivered && id !in h.discarded &&
          s.store[id].id == id && s.store[id].attempts < MAX_REPLAY_ATTEMPTS &&
          h.rejections[id] == s.store[id].attempts + if Unstored(s, id, false) then 1 else 0)
    && (id in h.delivered ==> id in h.issued && id !in h.discarded)
    && (id in h.discarded ==> id in h.issued && h.rejections[id] == MAX_REPLAY_ATTEMPTS)
    && (id in h.removed ==> id in h.issued)
    && (id in h.issued ==>
          (id in s.store || id in h.delivered || id in h.discarded || id in h.removed) &&
          (id in h.discarded || Unstored(s, id, false) || h.rejections[id] < MAX_REPLAY_ATTEMPTS))
    && h.acceptances[id] == (if id in h.delivered || Unstored(s, id, true) then 1 else 0)
  }

  /** One pending entry: nobody but the replay has touched it, unless it was removed. */
  predicate PendingOk(s: State, e: Entry) {
    var h := s.history;
    && e.id in h.issued && e.id in h.rejections && e.id !in h.delivered && e.id !in h.discarded
    && e.attempts < MAX_REPLAY_ATTEMPTS
    && h.rejections[e.id] == e.attempts + (if Unstored(s, e.id, false) then 1 else 0)
    && (if e.id in s.store then s.store[e.id] == e else e.id in h.removed)
  }

  ghost predicate Inv(s: State) {
    var pending := Pending(s);
    && (forall id :: EntryOk(s, id))
    && (forall i | 0 <= i < |pending| :: PendingOk(s, pending[i]))
    && DistinctIds(pending)
    && (s.phase.Sending? || s.phase.Writing? ==> pending != [])
    && |s.history.delivered| == s.history.returned + s.replayed
    && (s.phase.Idle? || s.phase.Reading? ==> s.replayed == 0)
  }

  lemma EnqueueKeeps(s: State, id: Bytes, at: int, t: State)
    requires Inv(s) && id !in s.history.issued && t == EnqueueEntry(s, id, at)
    ensures Inv(t)
  {
    forall x ensures EntryOk(t, x) { assert EntryOk(s, x); }
    forall i | 0 <= i < |Pending(s)| ensures PendingOk(t, Pending(s)[i]) { assert PendingOk(s, Pending(s)[i]); }
  }

  lemma RemoveKeeps(s: State, ids: set<Bytes>, t: State)
    requires Inv(s) && t == Remove(s, ids)
    ensures Inv(t)
  {
    forall x ensures EntryOk(t, x) { assert EntryOk(s, x); }
    forall i | 0 <= i < |Pending(s)| ensures PendingOk(t, Pending(s)[i]) { assert PendingOk(s, Pending(s)[i]); }
  }

  lemma ReadKeeps(s: State, queue: seq<Entry>, t: State)
    requires Inv(s) && s.phase == Reading && Listing(s.store, queue) && t == Proceed(s, queue)
    ensures Inv(t)
  {
    forall x ensures EntryOk(t, x) { assert EntryOk(s, x); }
    forall i | 0 <= i < |queue| ensures PendingOk(t, queue[i]) {
      assert queue[i] in queue;
      assert EntryOk(s, queue[i].id);
    }
  }

  lemma HearKeeps(s: State, pending: seq<Entry>, answer: Answer, t: State)
    requires Inv(s) && s.phase == Sending(pending) && pending != [] && pending[0].id in s.history.rejections
    requires t == Hear(s, pending, answer)
    ensures Inv(t)
  {
    assert PendingOk(s, pending[0]);
    forall x ensures EntryOk(t, x) { assert EntryOk(s, x); }
    forall i | 0 <= i < |Pending(t)| ensures PendingOk(t, pending[i]) { assert PendingOk(s, pending[i]); }
  }

  lemma WriteKeeps(s: State, pending: seq<Entry>, accepted: bool, mid: State, t: State)
    requires Inv(s) && s.phase == Writing(pending, accepted) && pending != []
    requires mid == Store(s, pending[0], accepted) && t == Proceed(mid, pending[1..])
    ensures Inv(t)
  {
    assert PendingOk(s, pending[0]);
    forall x ensures EntryOk(t, x) { assert EntryOk(s, x); }
    forall i | 0 <= i < |pending| - 1 ensures PendingOk(t, pending[1..][i]) { assert PendingOk(s, pending[i + 1]); }
  }

  lemma NextKeeps(s: State, e: Event)
    requires Inv(s)
    ensures Inv(Next(s, e))
  {
    var t := Next(s, e);
    match e
    case DoEnqueue(id, at) => if id !in s.history.issued { EnqueueKeeps(s, id, at, t); }
    case DoRemove(ids) => RemoveKeeps(s, ids, t);
    case DoBegin => BeginKeeps(s);
    case DoRead(queue) => if s.phase == Reading && Listing(s.store, queue) { ReadKeeps(s, queue, t); }
    case DoAnswer(answer) =>
      if s.phase.Sending? {
        assert PendingOk(s, Pending(s)[0]);
        HearKeeps(s, s.phase.pending, answer, t);
      }
    case DoWrite =>
      if s.phase.Writing? {
        WriteKeeps(s, s.phase.pending, s.phase.accepted, Store(s, s.phase.pending[0], s.phase.accepted), t);
      }
  }

  lemma BeginKeeps(s: State)
    requires Inv(s)
    ensures Inv(Next(s, DoBegin))
  {
    var t := Next(s, DoBegin);
    forall x ensures EntryOk(t, x) { assert EntryOk(s, x); }
    forall i | 0 <= i < |Pending(t)| ensures PendingOk(t, Pending(t)[i]) { assert PendingOk(s, Pending(s)[i]); }
  }

  lemma {:induction false} RunKeeps(s: State, events: seq<Event>)
    requires Inv(s)
    ensures Inv(Run(s, events))
    decreases |events|
  {
    if events != [] {
      NextKeeps(s, events[0]);
      RunKeeps(Next(s, events[0]), events[1..]);
    }
  }

  // ----- what holds in every run -----

  /** Queued, delivered or discarded, and only one of them; an entry in none of the three was removed by the caller. */
  lemma OneFate(s: State, id: Bytes)
    requires Reachable(s) && id in s.history.issued
    ensures id in s.store ==> id !in s.history.delivered && id !in s.history.discarded
    ensures id in s.history.delivered ==> id !in s.history.discarded
    ensures id !in s.store && id !in s.history.delivered && id !in s.history.discarded ==> id in s.history.removed
  {
    var past :| Run(START, past) == s;
    RunKeeps(START, past);
    assert EntryOk(s, id);
  }

  /** A queued entry has been rejected as often as it says, fewer than five times; the fifth rejection discards it. */
  lemma AttemptsAreRejections(s: State, id: Bytes)
    requires Reachable(s) && id in s.history.issued
    ensures id in s.history.rejections
    ensures id in s.store && !s.phase.Writing? ==> s.store[id].attempts == s.history.rejections[id] < 5
    ensures id in s.history.discarded ==> s.history.rejections[id] == 5
    ensures s.history.rejections[id] >= 5 ==> id in s.history.discarded || Unstored(s, id, false)
  {
    var past :| Run(START, past) == s;
    RunKeeps(START, past);
    assert EntryOk(s, id);
  }

  /** However the calls interleave, no entry is accepted twice, and the numbers returned add up to the entries delivered. */
  lemma AcceptedOnce(s: State, id: Bytes)
    requires Reachable(s)
    ensures s.history.acceptances[id] <= 1
    ensures !s.phase.Writing? ==> (s.history.acceptances[id] == 1 <==> id in s.history.delivered)
    ensures |s.history.delivered| == s.history.returned + s.replayed
  {
    var past :| Run(START, past) == s;
    RunKeeps(START, past);
    assert EntryOk(s, id);
  }

  // ----- during one replay -----

  /** The queue is not read again: whatever happens until the next replay. */
  predicate OneReplay(events: seq<Event>) {
    forall e | e in events :: !e.DoRead?
  }

  /** Nobody removes this entry; others may come and go. */
  predicate Spared(events: seq<Event>, id: Bytes) {
    forall e | e in events && e.DoRemove? :: id !in e.ids
  }

  predicate Suffix(p: seq<Entry>, q: seq<Entry>) {
    |p| <= |q| && q[|q| - |p|..] == p
  }

  lemma PendingUnchanged(s: State, e: Entry)
    requires Inv(s) && e in Pending(s)
    ensures PendingOk(s, e)
  {
    var i :| 0 <= i < |Pending(s)| && Pending(s)[i] == e;
  }

  /** A step leaves the pending entries alone or is done with the first, or with all of them. */
  lemma PendingShrinks(s: State, e: Event)
    requires Inv(s) && !e.DoRead?
    ensures var p, p' := Pending(s), Pending(Next(s, e));
            p' == p || p' == [] || (p != [] && p' == p[1..] && e == DoWrite && s.phase.Writing?)
  {
  }

  lemma StartOk()
    ensures Inv(START)
  {
  }

  /** While an entry stays pending, only its removal takes it out of the store, and nothing puts it back. */
  lemma PendingStored(s: State, e: Event, x: Entry)
    requires Inv(s) && x in Pending(s) && x in Pending(Next(s, e)) && !e.DoRead?
    ensures x.id in Next(s, e).store <==> x.id in s.store && !(e.DoRemove? && x.id in e.ids)
  {
    PendingUnchanged(s, x);
    if e == DoWrite && s.phase.Writing? {
      var p := s.phase.pending;
      var k :| 0 <= k < |p[1..]| && p[1..][k] == x;
      assert p[0].id != p[k + 1].id;
    }
  }

  lemma {:induction false} PendingIsSuffix(s: State, events: seq<Event>)
    requires Inv(s) && OneReplay(events)
    ensures Suffix(Pending(Run(s, events)), Pending(s))
    decreases |events|
  {
    var q := Pending(s);
    assert q[0..] == q && q[|q|..] == [];
    if events != [] {
      var t := Next(s, events[0]);
      PendingShrinks(s, events[0]);
      NextKeeps(s, events[0]);
      PendingIsSuffix(t, events[1..]);
      SuffixTail(Pending(Run(t, events[1..])), Pending(t), q);
    }
  }

  lemma SuffixTail(p: seq<Entry>, t: seq<Entry>, q: seq<Entry>)
    requires Suffix(p, t) && (t == q || t == [] || (q != [] && t == q[1..]))
    ensures Suffix(p, q)
  {
    assert t == [] ==> q[|q|..] == [];
    assert t != [] && t != q ==> t[|t| - |p|..] == q[|q| - |p|..];
  }

  lemma SuffixMember(p: seq<Entry>, q: seq<Entry>, e: Entry)
    requires Suffix(p, q) && e in p
    ensures e in q
  {
    var i :| 0 <= i < |p| && p[i] == e;
    assert q[|q| - |p| + i] == e;
  }

  /** An entry pending to the end is still stored, unchanged, if and only if nobody removed it. */
  lemma {:induction false} StillPending(s: State, events: seq<Event>, x: Entry)
    requires Inv(s) && OneReplay(events) && x in Pending(Run(s, events)) && x in Pending(s) && x.id in s.store
    ensures x.id in Run(s, events).store <==> Spared(events, x.id)
    decreases |events|
  {
    if events != [] {
      var e, rest := events[0], events[1..];
      var t := Next(s, e);
      assert e in events && events == [e] + rest;
      NextKeeps(s, e);
      PendingIsSuffix(t, rest);
      SuffixMember(Pending(Run(t, rest)), Pending(t), x);
      PendingStored(s, e, x);
      if x.id in t.store {
        StillPending(t, rest, x);
      } else {
        GoneWhilePending(t, rest, x);
      }
    }
  }

  lemma {:induction false} GoneWhilePending(s: State, events: seq<Event>, x: Entry)
    requires Inv(s) && OneReplay(events) && x in Pending(Run(s, events)) && x in Pending(s) && x.id !in s.store
    ensures x.id !in Run(s, events).store
    decreases |events|
  {
    if events != [] {
      var t := Next(s, events[0]);
      NextKeeps(s, events[0]);
      PendingIsSuffix(t, events[1..]);
      SuffixMember(Pending(Run(t, events[1..])), Pending(t), x);
      PendingStored(s, events[0], x);
      GoneWhilePending(t, events[1..], x);
    }
  }

  /**
   A transport failure ends the replay and leaves the entry it concerns and every later one as
   they were when the replay read the queue; of these, exactly the ones somebody removed in the
   meantime are gone.
   */
  lemma TransportFailureLeavesRest(s: State, q: seq<Entry>, events: seq<Event>, t: State, after: State)
    requires Reachable(s) && s.phase == Reading && Listing(s.store, q) && OneReplay(events)
    requires t == Run(Next(s, DoRead(q)), events) && t.phase.Sending? && after == Next(t, DoAnswer(Unreachable))
    ensures after.phase == Idle && Suffix(t.phase.pending, q)
    ensures forall e | e in t.phase.pending :: e in q && (e.id in after.store <==> Spared(events, e.id))
    ensures forall e | e in t.phase.pending && e.id in after.store :: after.store[e.id] == e
  {
    hide Inv, Next, Listing, Run, Spared, Suffix;
    var past :| Run(START, past) == s;
    StartOk();
    RunKeeps(START, past);
    var r := Next(s, DoRead(q));
    NextKeeps(s, DoRead(q));
    RunKeeps(r, events);
    PendingIsSuffix(r, events);
    ReadPending(s, q, r);
    FirstCanBeAnswered(t, Unreachable);
    forall e | e in t.phase.pending
      ensures e in q && (e.id in after.store <==> Spared(events, e.id)) && (e.id in after.store ==> after.store[e.id] == e)
    {
      RestMember(r, events, t, e);
    }
  }

  lemma RestMember(r: State, events: seq<Event>, t: State, e: Entry)
    requires Inv(r) && OneReplay(events) && t == Run(r, events) && Inv(t) && Suffix(Pending(t), Pending(r)) && e in Pending(t)
    requires forall x | x in Pending(r) :: x.id in r.store
    ensures e in Pending(r) && (e.id in t.store <==> Spared(events, e.id)) && (e.id in t.store ==> t.store[e.id] == e)
  {
    hide Inv, Run;
    SuffixMember(Pending(t), Pending(r), e);
    StillPending(r, events, e);
    PendingUnchanged(t, e);
  }

  lemma ReadPending(s: State, q: seq<Entry>, r: State)
    requires s.phase == Reading && Listing(s.store, q) && r == Next(s, DoRead(q))
    ensures Pending(r) == q && r.store == s.store && forall e | e in q :: e.id in r.store
  {
  }

  lemma FirstCanBeAnswered(s: State, answer: Answer)
    requires Inv(s) && s.phase.Sending?
    ensures s.phase.pending[0].id in s.history.rejections && Next(s, DoAnswer(answer)) == Hear(s, s.phase.pending, answer)
  {
    assert PendingOk(s, Pending(s)[0]);
  }

  ghost predicate NotPending(s: State, id: Bytes) {
    forall e | e in Pending(s) :: e.id != id
  }

  lemma NotPendingStep(s: State, e: Event, id: Bytes)
    requires NotPending(s, id) && id in s.history.issued && !e.DoRead?
    ensures var t := Next(s, e);
            NotPending(t, id) && id in t.history.issued &&
            (id in t.store <==> id in s.store && !(e.DoRemove? && id in e.ids)) &&
            (id in t.store ==> t.store[id] == s.store[id])
  {
    forall x | x in Pending(Next(s, e)) ensures x in Pending(s) {
    }
    if e == DoWrite && s.phase.Writing? && s.phase.pending != [] { assert s.phase.pending[0] in Pending(s); }
  }

  /** What is not part of a replay stays stored, unchanged, if and only if nobody removes it. */
  lemma {:induction false} LaterEntriesUntouched(s: State, events: seq<Event>, id: Bytes)
    requires OneReplay(events) && NotPending(s, id) && id in s.history.issued
    ensures id in Run(s, events).store <==> id in s.store && Spared(events, id)
    ensures id in Run(s, events).store ==> Run(s, events).store[id] == s.store[id]
    decreases |events|
  {
    if events != [] {
      assert events[0] in events && events == [events[0]] + events[1..];
      NotPendingStep(s, events[0], id);
      LaterEntriesUntouched(Next(s, events[0]), events[1..], id);
    }
  }

  /** What is enqueued while a replay runs is not part of it: only its own removal takes it away. */
  lemma EnqueuedDuringReplay(s: State, id: Bytes, at: int, events: seq<Event>)
    requires Reachable(s) && id !in s.history.issued && OneReplay(events)
    ensures var t := Run(Next(s, DoEnqueue(id, at)), events);
            (id in t.store <==> Spared(events, id)) && (id in t.store ==> t.store[id] == Entry(id, at, 0))
  {
    var past :| Run(START, past) == s;
    RunKeeps(START, past);
    forall e | e in Pending(s) ensures e.id != id { PendingUnchanged(s, e); }
    LaterEntriesUntouched(Next(s, DoEnqueue(id, at)), events, id);
  }

  // ----- removal -----

  ghost predicate RemovalIsFinal(s: State) {
    s.store.Keys !! s.history.removed
  }

  /** The replay is about to put back an entry that is no longer stored. */
  predicate PutsBack(s: State) {
    s.phase.Writing? && s.phase.pending != [] && !s.phase.accepted &&
    s.phase.pending[0].attempts + 1 < MAX_REPLAY_ATTEMPTS && s.phase.pending[0].id !in s.store
  }

  /** A removed entry stays removed, except in one step: storing the rejection of an entry removed in flight. */
  lemma RemovalStays(s: State, e: Event)
    requires Inv(s) && RemovalIsFinal(s)
    ensures RemovalIsFinal(Next(s, e)) <==> !(e == DoWrite && PutsBack(s))
  {
    var t := Next(s, e);
    match e
    case DoEnqueue(id, at) => assert EntryOk(s, id);
    case DoWrite =>
      if s.phase.Writing? {
        var first := s.phase.pending[0];
        assert PendingOk(s, first);
        if PutsBack(s) {
          assert first.id in t.store && first.id in t.history.removed;
        } else {
          assert t.store.Keys <= s.store.Keys;
        }
      }
    case _ =>
  }

  /** Clearing the queue while a rejection is on its way brings the entry back. */
  lemma ClearedEntryReturns(id: Bytes, at: int)
    ensures var e := Entry(id, at, 0);
            var s := Run(START, [DoEnqueue(id, at), DoBegin, DoRead([e]), DoRemove({id}), DoAnswer(Rejected), DoWrite]);
            id in s.history.removed && id in s.store && s.store[id].attempts == 1
  {
    var e := Entry(id, at, 0);
    var s1 := Next(START, DoEnqueue(id, at));
    var s2 := Next(s1, DoBegin);
    assert Listing(s2.store, [e]);
    var s3 := Next(s2, DoRead([e]));
    assert s3 == s2.(phase := Sending([e]));
    var s4 := Next(s3, DoRemove({id}));
    assert s4.store == map[];
    var s5 := Next(s4, DoAnswer(Rejected));
    var s6 := Next(s5, DoWrite);
    RunSix(START, DoEnqueue(id, at), DoBegin, DoRead([e]), DoRemove({id}), DoAnswer(Rejected), DoWrite);
  }

  lemma RunSix(s: State, a: Event, b: Event, c: Event, d: Event, e: Event, f: Event)
    ensures Run(s, [a, b, c, d, e, f]) == Next(Next(Next(Next(Next(Next(s, a), b), c), d), e), f)
  {
    assert [a, b, c, d, e, f] == [a, b] + [c, d, e, f] && [c, d, e, f] == [c, d] + [e, f] && [e, f] == [e, f] + [];
    RunTwo(s, a, b, [c, d, e, f]);
    var s2 := Next(Next(s, a), b);
    RunTwo(s2, c, d, [e, f]);
    RunTwo(Next(Next(s2, c), d), e, f, []);
  }

  /** Removals happen only while no replay has the queue in its hands. */
  ghost predicate RemovesAtRest(s: State, events: seq<Event>)
    decreases |events|
  {
    events == [] ||
    ((events[0].DoRemove? ==> s.phase.Idle? || s.phase.Reading?) && RemovesAtRest(Next(s, events[0]), events[1..]))
  }

  lemma {:induction false} RemovalFinalAtRest(s: State, events: seq<Event>)
    requires Inv(s) && RemovalIsFinal(s) && RemovesAtRest(s, events)
    requires forall e | e in Pending(s) :: e.id in s.store
    ensures RemovalIsFinal(Run(s, events))
    decreases |events|
  {
    if events != [] {
      var e := events[0];
      var t := Next(s, e);
      if s.phase.Writing? { assert s.phase.pending[0] in Pending(s); }
      RemovalStays(s, e);
      NextKeeps(s, e);
      if !e.DoRead? && !e.DoRemove? {
        PendingShrinks(s, e);
        forall x | x in Pending(t) ensures x.id in t.store { PendingStored(s, e, x); }
      }
      RemovalFinalAtRest(t, events[1..]);
    }
  }

  // ----- the engine itself -----

  /** The steps of a replay nobody interrupts. */
  function Answers(q: seq<Entry>, answers: seq<Answer>): seq<Event>
    requires |answers| >= |q|
    decreases |q|
  {
    if q == [] then []
    else if answers[0] == Unreachable then [DoAnswer(Unreachable)]
    else [DoAnswer(answers[0]), DoWrite] + Answers(q[1..], answers[1..])
  }

  lemma RunTwo(s: State, a: Event, b: Event, events: seq<Event>)
    ensures Run(s, [a, b] + events) == Run(Next(Next(s, a), b), events)
  {
    assert ([a, b] + events)[1..] == [b] + events;
    assert ([b] + events)[1..] == events;
  }

  class SyncEngine {
    var store: map<Bytes, Entry>
    var isReplaying: bool
    ghost var past: History

    ghost function Now(): State
      reads this
    {
      State(store, if isReplaying then Reading else Idle, 0, past)
    }

    ghost predicate Valid()
      reads this
    {
      Inv(Now())
    }

    constructor ()
      ensures Valid() && Now() == START
    {
      store, isReplaying, past := map[], false, START.history;
    }

    method Enqueue(id: Bytes, createdAt: int)
      requires Valid() && id !in past.issued
      modifies this`store, this`past
      ensures Valid() && Now() == Next(old(Now()), DoEnqueue(id, createdAt))
    {
      ghost var before := Now();
      NextKeeps(before, DoEnqueue(id, createdAt));
      store := store[id := Entry(id, createdAt, 0)];
      past := EnqueueEntry(before, id, createdAt).history;
    }

    method GetQueue() returns (queue: seq<Entry>)
      requires Keyed(store)
      ensures Listing(store, queue)
      ensures forall i, j | 0 <= i < j < |queue| ::
                queue[i].createdAt < queue[j].createdAt ||
                (queue[i].createdAt == queue[j].createdAt && Precedes(queue[i].id, queue[j].id))
    {
      var rest, list := store.Keys, [];
      while rest != {}
        invariant rest <= store.Keys
        invariant DistinctIds(list)
        invariant forall e | e in list :: e.id in store && store[e.id] == e && e.id !in rest
        invariant forall id | id in store && id !in rest :: store[id] in list
        decreases |rest|
      {
        var id :| id in rest;
        rest := rest - {id};
        list := list + [store[id]];
      }
      queue := Sort(list, ByCreation);
      SortedListing(store, list, queue);
    }

    method Dequeue(id: Bytes)
      requires Valid()
      modifies this`store, this`past
      ensures Valid() && Now() == Next(old(Now()), DoRemove({id}))
    {
      ghost var before := Now();
      NextKeeps(before, DoRemove({id}));
      store := store - {id};
      past := Remove(before, {id}).history;
    }

    method ClearQueue()
      requires Valid()
      modifies this`store, this`past
      ensures Valid() && Now() == Next(old(Now()), DoRemove(old(store.Keys)))
    {
      ghost var before := Now();
      NextKeeps(before, DoRemove(store.Keys));
      assert store - store.Keys == map[];
      past := Remove(before, store.Keys).history;
      store := map[];
    }

    method SettleEntry(entry: Entry, accepted: bool)
      modifies this`store
      ensures store == Settle(old(store), entry, accepted)
    {
      if accepted { store := store - {entry.id}; return; }
      var tried := entry.(attempts := entry.attempts + 1);
      if tried.attempts >= MAX_REPLAY_ATTEMPTS {
        store := store - {entry.id};
      } else {
        store := store[entry.id := tried];
      }
    }

    /** The loop over the queue as it was read. */
    method Submit(queue: seq<Entry>, answers: seq<Answer>, ghost start: State) returns (replayed: nat)
      requires |answers| >= |queue| && Inv(start) && start == Proceed(State(store, Reading, 0, past), queue)
      modifies this`store, this`past
      ensures Finish(State(store, Reading, replayed, past)) == Run(start, Answers(queue, answers))
      ensures past.returned == old(past.returned)
      ensures Inv(Run(start, Answers(queue, answers)))
    {
      replayed := 0;
      var pending, left := queue, answers;
      ghost var now, end := start, Run(start, Answers(queue, answers));
      while pending != []
        invariant |left| >= |pending| && Inv(now) && past.returned == old(past.returned)
        invariant now == Proceed(State(store, Reading, replayed, past), pending)
        invariant Run(now, Answers(pending, left)) == end
        decreases |pending|
      {
        var entry, answer := pending[0], left[0];
        if answer == Unreachable {
          LastRound(now, pending, left);
          break;
        }
        ghost var stored := Round(now, pending, left);
        SettleEntry(entry, answer == Accepted);
        if answer == Accepted { replayed := replayed + 1; }
        past := stored.history;
        pending, left := pending[1..], left[1..];
        now := Proceed(stored, pending);
      }
    }

    /** `answers` are the outcomes the submissions would meet, in order. */
    method ReplayQueue(answers: seq<Answer>) returns (replayed: nat, ghost queue: seq<Entry>)
      requires Valid() && |answers| >= |store|
      modifies this
      ensures Valid() && isReplaying == old(isReplaying)
      ensures old(isReplaying) ==> replayed == 0 && Now() == old(Now())
      ensures !old(isReplaying) ==> Listing(old(store), queue) && |queue| <= |answers|
      ensures !old(isReplaying) ==> Now() == Replay(old(Now()), queue, answers)
      ensures !old(isReplaying) ==> past.returned == old(past.returned) + replayed
    {
      if isReplaying { return 0, []; }
      ghost var before := Now();
      StoreKeyed(before);
      isReplaying := true;
      var pending := GetQueue();
      queue := pending;
      ghost var start := StartReplay(before, queue, answers);
      replayed := Submit(pending, answers, start);
      ghost var end := Replay(before, queue, answers);
      isReplaying := false;
      past := past.(returned := past.returned + replayed);
      assert Now() == end;
    }
  }

  /** A replay from start to end, with nothing in between. */
  ghost function Replay(s: State, queue: seq<Entry>, answers: seq<Answer>): State
    requires |answers| >= |queue|
  {
    Run(Next(Next(s, DoBegin), DoRead(queue)), Answers(queue, answers))
  }

  /** The queue is read oldest first, entries of the same time by identifier in byte order. */
  lemma OldestFirst(store: map<Bytes, Entry>, q: seq<Entry>, i: nat, j: nat)
    requires Listing(store, q) && i < j < |q|
    ensures q[i].createdAt < q[j].createdAt || (q[i].createdAt == q[j].createdAt && Precedes(q[i].id, q[j].id))
  {
    SortedAt(q, ByCreation, i, j);
    LexIsPrecedes(q[i].id, q[j].id);
  }

  /** Sorting the stored entries, in whatever order they come, gives the listing. */
  lemma SortedListing(store: map<Bytes, Entry>, list: seq<Entry>, queue: seq<Entry>)
    requires DistinctIds(list) && queue == Sort(list, ByCreation)
    requires forall e | e in list :: e.id in store && store[e.id] == e
    requires forall id | id in store :: store[id] in list
    ensures Listing(store, queue)
    ensures forall i, j | 0 <= i < j < |queue| ::
              queue[i].createdAt < queue[j].createdAt ||
              (queue[i].createdAt == queue[j].createdAt && Precedes(queue[i].id, queue[j].id))
  {
    hide Precedes, Sorted;
    SortSorts(list, ByCreation);
    DistinctAfterSort(list, queue);
    forall i, j | 0 <= i < j < |queue|
      ensures queue[i].createdAt < queue[j].createdAt ||
              (queue[i].createdAt == queue[j].createdAt && Precedes(queue[i].id, queue[j].id))
    {
      OldestFirst(store, queue, i, j);
    }
  }

  // ----- what an undisturbed replay does -----

  /** How many of the first `k` submissions get an answer: all before the first transport failure. */
  function Heard(k: nat, answers: seq<Answer>): (n: nat)
    requires k <= |answers|
    ensures n <= k
  {
    if k == 0 || answers[0] == Unreachable then 0 else 1 + Heard(k - 1, answers[1..])
  }

  lemma {:induction false} HeardIs(k: nat, answers: seq<Answer>)
    requires k <= |answers|
    ensures var n := Heard(k, answers);
            (forall i | 0 <= i < n :: answers[i] != Unreachable) && (n < k ==> answers[n] == Unreachable)
    decreases k
  {
    if k > 0 && answers[0] != Unreachable {
      HeardIs(k - 1, answers[1..]);
      forall i | 0 <= i < Heard(k, answers) ensures answers[i] != Unreachable {
        if i > 0 { assert answers[i] == answers[1..][i - 1]; }
      }
    }
  }

  function AcceptedAmong(answers: seq<Answer>): nat {
    if answers == [] then 0 else (if answers[0] == Accepted then 1 else 0) + AcceptedAmong(answers[1..])
  }

  /** What one answer does to an entry: accepted it is gone, rejected it is tried again, a fifth time never. */
  predicate Answered(store: map<Bytes, Entry>, e: Entry, answer: Answer) {
    match answer
    case Accepted => e.id !in store
    case Rejected =>
      if e.attempts + 1 >= 5 then e.id !in store
      else e.id in store && store[e.id] == Entry(e.id, e.createdAt, e.attempts + 1)
    case Unreachable => e.id in store && store[e.id] == e
  }

  ghost predicate InStore(store: map<Bytes, Entry>, q: seq<Entry>) {
    forall i | 0 <= i < |q| :: q[i].id in store && store[q[i].id] == q[i]
  }

  predicate Elsewhere(q: seq<Entry>, id: Bytes) {
    forall i | 0 <= i < |q| :: q[i].id != id
  }

  /** Entries before the first transport failure are answered, all others stay as they are. */
  ghost predicate Outcome(before: map<Bytes, Entry>, after: map<Bytes, Entry>, q: seq<Entry>, answers: seq<Answer>)
    requires |answers| >= |q|
  {
    && (forall i | 0 <= i < |q| :: Answered(after, q[i], if i < Heard(|q|, answers) then answers[i] else Unreachable))
    && (forall id | Elsewhere(q, id) :: (id in after <==> id in before) && (id in after ==> after[id] == before[id]))
  }

  lemma OutcomeStep(before: map<Bytes, Entry>, mid: map<Bytes, Entry>, after: map<Bytes, Entry>, q: seq<Entry>, answers: seq<Answer>)
    requires q != [] && |answers| >= |q| && answers[0] != Unreachable && DistinctIds(q)
    requires mid == Settle(before, q[0], answers[0] == Accepted) && Outcome(mid, after, q[1..], answers[1..])
    ensures Outcome(before, after, q, answers)
  {
    var rest := q[1..];
    forall i | 0 <= i < |q| ensures Answered(after, q[i], if i < Heard(|q|, answers) then answers[i] else Unreachable) {
      if i == 0 {
        assert Elsewhere(rest, q[0].id);
      } else {
        assert q[i] == rest[i - 1] && answers[i] == answers[1..][i - 1];
        assert Answered(after, rest[i - 1], if i - 1 < Heard(|rest|, answers[1..]) then answers[1..][i - 1] else Unreachable);
      }
    }
    forall id | Elsewhere(q, id) ensures (id in after <==> id in before) && (id in after ==> after[id] == before[id]) {
      assert Elsewhere(rest, id) && id != q[0].id;
    }
  }

  lemma SettleOthers(before: map<Bytes, Entry>, q: seq<Entry>, accepted: bool, rest: seq<Entry>)
    requires q != [] && DistinctIds(q) && InStore(before, q) && rest == q[1..]
    ensures InStore(Settle(before, q[0], accepted), rest) && DistinctIds(rest)
  {
    forall i | 0 <= i < |rest| ensures rest[i].id != q[0].id && rest[i].id in before && before[rest[i].id] == rest[i] {
      assert rest[i] == q[i + 1];
    }
  }

  lemma {:induction false} SubmissionsOutcome(now: State, q: seq<Entry>, answers: seq<Answer>)
    requires Inv(now) && |answers| >= |q| && DistinctIds(q) && InStore(now.store, q)
    requires now.phase == if q == [] then Idle else Sending(q)
    ensures var t := Run(now, Answers(q, answers));
            && t.phase == Idle && Outcome(now.store, t.store, q, answers)
            && t.history.returned + t.replayed ==
               now.history.returned + now.replayed + AcceptedAmong(answers[..Heard(|q|, answers)])
    decreases |q|
  {
    hide Inv, Next, Answered, Store, Outcome;
    if q == [] {
      NothingAnswered(now.store, answers);
    } else if answers[0] == Unreachable {
      LastRound(now, q, answers);
      NothingHeard(now.store, q, answers);
    } else {
      var rest, left := q[1..], answers[1..];
      var stored := Round(now, q, answers);
      StoredMap(now, q[0], answers[0], stored);
      SettleOthers(now.store, q, answers[0] == Accepted, rest);
      var next := Proceed(stored, rest);
      SubmissionsOutcome(next, rest, left);
      OutcomeStep(now.store, stored.store, Run(next, Answers(rest, left)).store, q, answers);
      AcceptedStep(|q|, answers);
    }
  }

  lemma StoredMap(now: State, e: Entry, answer: Answer, stored: State)
    requires exists heard: State :: heard.store == now.store && stored == Store(heard, e, answer == Accepted)
    ensures stored.store == Settle(now.store, e, answer == Accepted)
  {
  }

  lemma AcceptedStep(k: nat, answers: seq<Answer>)
    requires 0 < k <= |answers| && answers[0] != Unreachable
    ensures AcceptedAmong(answers[..Heard(k, answers)]) ==
            (if answers[0] == Accepted then 1 else 0) + AcceptedAmong(answers[1..][..Heard(k - 1, answers[1..])])
  {
    assert answers[..Heard(k, answers)][1..] == answers[1..][..Heard(k - 1, answers[1..])];
  }

  lemma NothingAnswered(store: map<Bytes, Entry>, answers: seq<Answer>)
    ensures Outcome(store, store, [], answers) && AcceptedAmong(answers[..0]) == 0
  {
  }

  lemma NothingHeard(store: map<Bytes, Entry>, q: seq<Entry>, answers: seq<Answer>)
    requires q != [] && |answers| >= |q| && answers[0] == Unreachable && InStore(store, q)
    ensures Outcome(store, store, q, answers) && AcceptedAmong(answers[..Heard(|q|, answers)]) == 0
  {
  }

  /**
   A replay nobody disturbs: up to the first transport failure every accepted entry is gone
   and every rejected one has one more attempt or, at the fifth, is gone too; all the others
   stay as they were; and the number returned is the number accepted.
   */
  lemma ReplayOutcome(s: State, queue: seq<Entry>, answers: seq<Answer>)
    requires Reachable(s) && s.phase == Idle && Listing(s.store, queue) && |answers| >= |s.store|
    ensures |answers| >= |queue|
    ensures var t := Replay(s, queue, answers);
            && t.phase == Idle
            && (forall i | 0 <= i < |queue| ::
                  Answered(t.store, queue[i], if i < Heard(|queue|, answers) then answers[i] else Unreachable))
            && (forall id | id in t.store :: exists i :: 0 <= i < |queue| && queue[i].id == id)
            && t.history.returned == s.history.returned + AcceptedAmong(answers[..Heard(|queue|, answers)])
  {
    hide Inv, Next, Run, Answered;
    var past :| Run(START, past) == s;
    StartOk();
    RunKeeps(START, past);
    var start := StartReplay(s, queue, answers);
    IdleHasNone(s);
    assert InStore(s.store, queue) by {
      forall i | 0 <= i < |queue| ensures queue[i].id in s.store && s.store[queue[i].id] == queue[i] { assert queue[i] in queue; }
    }
    SubmissionsOutcome(start, queue, answers);
    var t := Replay(s, queue, answers);
    RunKeeps(start, Answers(queue, answers));
    IdleHasNone(t);
    forall id | id in t.store ensures exists i :: 0 <= i < |queue| && queue[i].id == id {
      if Elsewhere(queue, id) {
        assert id in s.store && s.store[id] in queue;
        StoreKeyed(s);
      }
    }
  }

  lemma IdleHasNone(s: State)
    requires Inv(s) && s.phase == Idle
    ensures s.replayed == 0
  {
  }

  lemma StoreKeyed(s: State)
    requires Inv(s)
    ensures Keyed(s.store)
  {
    forall id | id in s.store ensures s.store[id].id == id { assert EntryOk(s, id); }
  }

  lemma StartReplay(before: State, queue: seq<Entry>, answers: seq<Answer>) returns (start: State)
    requires Inv(before) && before.phase == Idle && Listing(before.store, queue) && |answers| >= |before.store|
    ensures |answers| >= |queue|
    ensures start == Proceed(State(before.store, Reading, 0, before.history), queue) && Inv(start)
    ensures Replay(before, queue, answers) == Run(start, Answers(queue, answers))
  {
    start := Next(Next(before, DoBegin), DoRead(queue));
    NextKeeps(before, DoBegin);
    NextKeeps(Next(before, DoBegin), DoRead(queue));
    ListingSize(before.store, queue);
  }

  lemma LastRound(now: State, pending: seq<Entry>, left: seq<Answer>)
    requires Inv(now) && pending != [] && now.phase == Sending(pending) && |left| >= |pending| && left[0] == Unreachable
    ensures Run(now, Answers(pending, left)) == Finish(now) && Inv(Finish(now))
  {
    FirstCanBeAnswered(now, Unreachable);
    NextKeeps(now, DoAnswer(Unreachable));
    assert [DoAnswer(Unreachable)][1..] == [];
  }

  lemma Round(now: State, pending: seq<Entry>, left: seq<Answer>) returns (stored: State)
    requires Inv(now) && pending != [] && now.phase == Sending(pending) && |left| >= |pending| && left[0] != Unreachable
    ensures var heard := Next(now, DoAnswer(left[0]));
            stored == Store(heard, pending[0], left[0] == Accepted) && heard.store == now.store
    ensures stored.history.returned == now.history.returned
    ensures stored.replayed == now.replayed + if left[0] == Accepted then 1 else 0
    ensures Inv(Proceed(stored, pending[1..]))
    ensures Run(now, Answers(pending, left)) == Run(Proceed(stored, pending[1..]), Answers(pending[1..], left[1..]))
  {
    FirstCanBeAnswered(now, left[0]);
    NextKeeps(now, DoAnswer(left[0]));
    var heard := Next(now, DoAnswer(left[0]));
    stored := Store(heard, pending[0], left[0] == Accepted);
    NextKeeps(heard, DoWrite);
    assert Next(heard, DoWrite) == Proceed(stored, pending[1..]);
    RunTwo(now, DoAnswer(left[0]), DoWrite, Answers(pending[1..], left[1..]));
  }

  lemma DistinctAfterSort(list: seq<Entry>, queue: seq<Entry>)
    requires DistinctIds(list) && multiset(queue) == multiset(list)
    ensures DistinctIds(queue)
  {
    assert NoDuplicates(list);
    PermutedNoDuplicates(list, queue);
    forall i, j | 0 <= i < j < |queue| ensures queue[i].id != queue[j].id {
      assert queue[i] != queue[j];
      if queue[i].id == queue[j].id { SameIdSameEntry(list, queue, i, j); }
    }
  }

  lemma SameIdSameEntry(list: seq<Entry>, queue: seq<Entry>, i: nat, j: nat)
    requires DistinctIds(list) && multiset(queue) == multiset(list) && i < |queue| && j < |queue|
    requires queue[i].id == queue[j].id
    ensures queue[i] == queue[j]
  {
    assert queue[i] in multiset(list) && queue[j] in multiset(list);
    var k :| 0 <= k < |list| && list[k] == queue[i];
    var m :| 0 <= m < |list| && list[m] == queue[j];
    assert k == m;
  }

  lemma {:induction false} ListingSize(store: map<Bytes, Entry>, q: seq<Entry>)
    requires DistinctIds(q) && forall e | e in q :: e.id in store
    ensures |q| <= |store|
  {
    if q != [] {
      var id := q[0].id;
      forall e | e in q[1..] ensures e.id in store - {id} {
        var i :| 0 <= i < |q[1..]| && q[1..][i] == e;
        assert q[0].id != q[i + 1].id;
      }
      ListingSize(store - {id}, q[1..]);
      assert (store - {id}).Keys == store.Keys - {id};
      assert |store.Keys - {id}| == |store.Keys| - 1;
    }
  }

  /** The queue can be read in one way only, whatever order the entries were stored in. */
  lemma ListingUnique(store: map<Bytes, Entry>, a: seq<Entry>, b: seq<Entry>)
    requires Listing(store, a) && Listing(store, b) && Keyed(store)
    ensures a == b
  {
    assert NoDuplicates(a) && NoDuplicates(b);
    forall e ensures e in a <==> e in b {
    }
    SortedMembersUnique(a, b, ByCreation);
  }
}
