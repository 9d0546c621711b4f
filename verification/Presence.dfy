/**
 The room membership registry: one reference count and one serialised queue of joins and
 leaves per room. An operation is a promise: it waits for the one queued before it, runs,
 and settles as a success or a failure; settling clears the tail of the queue a moment
 later, if nothing was queued in between.
 */
module Presence {
  import opened Options

  datatype Kind = Join | Leave

  datatype Status = Waiting | Running | Settled(ok: bool)

  datatype Op = Op(kind: Kind, status: Status)

  /** Every operation ever queued, in order; `tail` is the queued operation a new one would wait for. */
  datatype Room = Room(count: nat, tail: Option<nat>, ops: seq<Op>)

  const EMPTY := Room(0, None, [])

  // ----- the registry -----

  /** An operation starts at once when no tail is set, and otherwise once the tail has settled. */
  function Enqueue(r: Room, kind: Kind): Room {
    r.(ops := r.ops + [Op(kind, if r.tail.None? then Running else Waiting)], tail := Some(|r.ops|))
  }

  function Acquire(r: Room): Room {
    var counted := r.(count := r.count + 1);
    if counted.count > 1 then counted else Enqueue(counted, Join)
  }

  /** The operation whose settling resolves the promise that `Acquire` returns; none when it is resolved already. */
  function Awaits(r: Room): Option<nat> {
    if r.count + 1 > 1 then r.tail else Some(|r.ops|)
  }

  function Release(r: Room): Room {
    if r.count == 0 then r
    else
      var counted := r.(count := r.count - 1);
      if counted.count > 0 then counted else Enqueue(counted, Leave)
  }

  class RoomEntry {
    var count: nat
    var tail: Option<nat>
    var ops: seq<Op>

    ghost function Now(): Room
      reads this
    {
      Room(count, tail, ops)
    }

    constructor ()
      ensures Now() == EMPTY
    {
      count, tail, ops := 0, None, [];
    }

    method EnqueueOp(kind: Kind) returns (settles: nat)
      modifies this`tail, this`ops
      ensures Now() == Enqueue(old(Now()), kind) && settles == old(|ops|)
    {
      settles := |ops|;
      if tail == None {
        ops := ops + [Op(kind, Running)];
      } else {
        ops := ops + [Op(kind, Waiting)];
      }
      tail := Some(settles);
    }

    method AcquireRoom() returns (awaits: Option<nat>)
      modifies this
      ensures Now() == Acquire(old(Now())) && awaits == Awaits(old(Now()))
    {
      count := count + 1;
      if count > 1 { return tail; }
      var settles := EnqueueOp(Join);
      awaits := Some(settles);
    }

    method ReleaseRoom()
      modifies this
      ensures Now() == Release(old(Now()))
    {
      if count == 0 { return; }
      count := count - 1;
      if count > 0 { return; }
      var _ := EnqueueOp(Leave);
    }
  }

  // ----- the event loop -----

  datatype Event = DoAcquire | DoRelease | DoStart(i: nat) | DoSettle(i: nat, ok: bool) | DoClear(i: nat)

  function Next(r: Room, e: Event): Room {
    match e
    case DoAcquire => Acquire(r)
    case DoRelease => Release(r)
    case DoStart(i) =>
      if 0 < i < |r.ops| && r.ops[i].status.Waiting? && r.ops[i - 1].status.Settled?
      then r.(ops := r.ops[i := r.ops[i].(status := Running)]) else r
    case DoSettle(i, ok) =>
      if i < |r.ops| && r.ops[i].status.Running?
      then r.(ops := r.ops[i := r.ops[i].(status := Settled(ok))]) else r
    case DoClear(i) =>
      if i < |r.ops| && r.ops[i].status.Settled? && r.tail == Some(i) then r.(tail := None) else r
  }

  function Run(r: Room, events: seq<Event>): Room
    decreases |events|
  {
    if events == [] then r else Run(Next(r, events[0]), events[1..])
  }

  // ----- what every step keeps -----

  /** Operations run one at a time, in the order they were queued. */
  ghost predicate Serialised(ops: seq<Op>) {
    forall i, j | 0 <= i < j < |ops| && !ops[j].status.Waiting? :: ops[i].status.Settled?
  }

  /** Joins and leaves strictly alternate, starting with a join. */
  ghost predicate Alternating(ops: seq<Op>) {
    forall i | 0 <= i < |ops| :: ops[i].kind == if i % 2 == 0 then Join else Leave
  }

  predicate AllSettled(ops: seq<Op>) {
    forall i | 0 <= i < |ops| :: ops[i].status.Settled?
  }

  ghost predicate Inv(r: Room) {
    && Serialised(r.ops)
    && Alternating(r.ops)
    && (r.count > 0 <==> |r.ops| % 2 == 1)
    && (r.tail.Some? ==> r.tail.value + 1 == |r.ops|)
    && (r.tail.None? ==> AllSettled(r.ops))
    && (r.ops != [] ==> !r.ops[0].status.Waiting?)
  }

  lemma NextKeeps(r: Room, e: Event)
    requires Inv(r)
    ensures Inv(Next(r, e))
  {
  }

  lemma {:induction false} RunKeeps(r: Room, events: seq<Event>)
    requires Inv(r)
    ensures Inv(Run(r, events))
    decreases |events|
  {
    if events != [] {
      NextKeeps(r, events[0]);
      RunKeeps(Next(r, events[0]), events[1..]);
    }
  }

  ghost predicate Reachable(r: Room) {
    exists events: seq<Event> :: Run(EMPTY, events) == r
  }

  /** In every run operations never overlap, run in queue order, and alternate from a join on. */
  lemma OneAtATime(r: Room, i: nat, j: nat)
    requires Reachable(r) && i < j < |r.ops|
    ensures !(r.ops[i].status.Running? && r.ops[j].status.Running?)
    ensures !r.ops[j].status.Waiting? ==> r.ops[i].status.Settled?
    ensures r.ops[0].kind == Join && (j == i + 1 ==> r.ops[i].kind != r.ops[j].kind)
  {
    var events :| Run(EMPTY, events) == r;
    RunKeeps(EMPTY, events);
  }

  // ----- use -----

  /** The subscribers of a run: acquires, less the releases that found one. */
  function Users(events: seq<Event>): nat {
    if events == [] then 0
    else
      var before := Users(events[..|events| - 1]);
      match events[|events| - 1]
      case DoAcquire => before + 1
      case DoRelease => if before > 0 then before - 1 else 0
      case _ => before
  }

  /** How often a run turned an unused room into a used one or back. */
  function Turns(events: seq<Event>): nat {
    if events == [] then 0
    else
      var front, e := events[..|events| - 1], events[|events| - 1];
      Turns(front) + (if (e == DoAcquire && Users(front) == 0) || (e == DoRelease && Users(front) == 1) then 1 else 0)
  }

  lemma {:induction false} RunAppend(r: Room, events: seq<Event>, e: Event)
    ensures Run(r, events + [e]) == Next(Run(r, events), e)
    decreases |events|
  {
    if events == [] {
      assert [] + [e] == [e];
    } else {
      assert (events + [e])[1..] == events[1..] + [e];
      RunAppend(Next(r, events[0]), events[1..], e);
    }
  }

  /** The registry counts the subscribers exactly, and queues one operation for every first one in and last one out. */
  lemma {:induction false} CountsUsers(events: seq<Event>)
    ensures var r := Run(EMPTY, events); r.count == Users(events) && |r.ops| == Turns(events)
    decreases |events|
  {
    if events != [] {
      var front, e := events[..|events| - 1], events[|events| - 1];
      assert front + [e] == events;
      CountsUsers(front);
      RunAppend(EMPTY, front, e);
    }
  }

  function Unsettled(ops: seq<Op>): set<nat> {
    set i | 0 <= i < |ops| && !ops[i].status.Settled?
  }

  function Undone(ops: seq<Op>): nat {
    |Unsettled(ops)| + |set i | 0 <= i < |ops| && ops[i].status.Waiting?|
  }

  lemma StatusCounts(ops: seq<Op>, i: nat, status: Status)
    requires i < |ops| && !ops[i].status.Settled?
    requires if ops[i].status.Waiting? then status == Running else status.Settled?
    ensures Undone(ops[i := ops[i].(status := status)]) == Undone(ops) - 1
  {
    var next := ops[i := ops[i].(status := status)];
    var waiting := set j | 0 <= j < |ops| && ops[j].status.Waiting?;
    var waiting' := set j | 0 <= j < |next| && next[j].status.Waiting?;
    if status.Settled? {
      assert Unsettled(next) == Unsettled(ops) - {i} && i in Unsettled(ops) && waiting' == waiting;
    } else {
      assert Unsettled(next) == Unsettled(ops) && waiting' == waiting - {i} && i in waiting;
    }
  }

  lemma FirstUnsettled(ops: seq<Op>) returns (i: nat)
    requires !AllSettled(ops)
    ensures i < |ops| && !ops[i].status.Settled? && forall j | 0 <= j < i :: ops[j].status.Settled?
  {
    i := 0;
    while ops[i].status.Settled?
      invariant i < |ops| && forall j | 0 <= j < i :: ops[j].status.Settled?
      decreases |ops| - i
    {
      i := i + 1;
    }
  }

  /** Whatever is queued, starting and settling operations in turn gets everything done; nothing is ever stuck. */
  lemma {:induction false} CanSettle(r: Room) returns (events: seq<Event>)
    requires Inv(r)
    ensures AllSettled(Run(r, events).ops) && Run(r, events).count == r.count && |Run(r, events).ops| == |r.ops|
    ensures forall e | e in events :: e.DoStart? || (e.DoSettle? && e.ok)
    decreases Undone(r.ops)
  {
    if AllSettled(r.ops) {
      events := [];
    } else {
      var i := FirstUnsettled(r.ops);
      var e := if r.ops[i].status.Waiting? then DoStart(i) else DoSettle(i, true);
      var n := Next(r, e);
      StatusCounts(r.ops, i, n.ops[i].status);
      NextKeeps(r, e);
      var rest := CanSettle(n);
      events := [e] + rest;
      assert events[1..] == rest;
    }
  }

  /** Once everything has settled, clearing the tail lets the next first subscriber join at once. */
  lemma RestStartsAtOnce(r: Room)
    requires Reachable(r) && AllSettled(r.ops) && r.count == 0
    ensures var rest := Next(r, DoClear(if r.ops == [] then 0 else |r.ops| - 1));
            && rest == r.(tail := None)
            && Acquire(rest) == Room(1, Some(|r.ops|), r.ops + [Op(Join, Running)]) && Awaits(rest) == Some(|r.ops|)
  {
    var events :| Run(EMPTY, events) == r;
    RunKeeps(EMPTY, events);
  }

  // ----- membership -----

  /** Whether the room is joined once the operations have run: what the last successful one did. */
  function Joined(ops: seq<Op>): bool {
    if ops == [] then false
    else
      var last := ops[|ops| - 1];
      if last.status == Settled(true) then last.kind == Join else Joined(ops[..|ops| - 1])
  }

  function TrailingFailures(ops: seq<Op>): nat {
    if ops == [] || ops[|ops| - 1].status == Settled(true) then 0 else 1 + TrailingFailures(ops[..|ops| - 1])
  }

  lemma {:induction false} JoinedParity(ops: seq<Op>)
    requires Alternating(ops)
    ensures TrailingFailures(ops) <= |ops|
    ensures Joined(ops) <==> (|ops| - TrailingFailures(ops)) % 2 == 1
  {
    if ops != [] && ops[|ops| - 1].status != Settled(true) {
      JoinedParity(ops[..|ops| - 1]);
    }
  }

  /**
   When every operation has settled, the room is joined exactly when somebody uses it, if and
   only if the number of operations that failed since the last success is even; in
   particular whenever the last operation succeeded.
   */
  lemma MembershipAtRest(events: seq<Event>)
    requires AllSettled(Run(EMPTY, events).ops)
    ensures var ops := Run(EMPTY, events).ops;
            (Joined(ops) <==> Users(events) > 0) <==> TrailingFailures(ops) % 2 == 0
  {
    RunKeeps(EMPTY, events);
    CountsUsers(events);
    JoinedParity(Run(EMPTY, events).ops);
  }

  /** A single failed join leaves a room in use that is not joined. */
  lemma FailedJoin()
    ensures var r := Run(EMPTY, [DoAcquire, DoSettle(0, false), DoClear(0)]);
            AllSettled(r.ops) && r.count == 1 && !Joined(r.ops)
  {
    var r1 := Next(EMPTY, DoAcquire);
    assert r1 == Room(1, Some(0), [Op(Join, Running)]);
    var r2 := Next(r1, DoSettle(0, false));
    assert r2 == Room(1, Some(0), [Op(Join, Settled(false))]);
    var r3 := Next(r2, DoClear(0));
    assert Run(r3, []) == r3;
    assert Run(r2, [DoClear(0)]) == r3;
    assert [DoSettle(0, false), DoClear(0)][1..] == [DoClear(0)];
    assert Run(r1, [DoSettle(0, false), DoClear(0)]) == r3;
    assert [DoAcquire, DoSettle(0, false), DoClear(0)][1..] == [DoSettle(0, false), DoClear(0)];
  }

  // ----- when an acquire resolves -----

  predicate Resolved(r: Room, awaits: Option<nat>) {
    awaits.None? || (awaits.value < |r.ops| && r.ops[awaits.value].status.Settled?)
  }

  lemma SettledStays(r: Room, e: Event, i: nat)
    requires i < |r.ops|
    ensures i < |Next(r, e).ops| && Next(r, e).ops[i].kind == r.ops[i].kind
    ensures r.ops[i].status.Settled? ==> Next(r, e).ops[i] == r.ops[i]
  {
  }

  lemma {:induction false} SettledStaysRun(r: Room, events: seq<Event>, i: nat)
    requires i < |r.ops|
    ensures i < |Run(r, events).ops| && Run(r, events).ops[i].kind == r.ops[i].kind
    ensures r.ops[i].status.Settled? ==> Run(r, events).ops[i] == r.ops[i]
    decreases |events|
  {
    if events != [] {
      SettledStays(r, events[0], i);
      SettledStaysRun(Next(r, events[0]), events[1..], i);
    }
  }

  /**
   However an acquire found the room, by the time its promise resolves the newest operation
   queued at that moment is a join and has settled: nobody proceeds before the join they share.
   */
  lemma AcquireWaitsForJoin(r: Room, events: seq<Event>)
    requires Reachable(r)
    ensures var a, later := Acquire(r), Run(Acquire(r), events);
            |a.ops| > 0 && a.ops[|a.ops| - 1].kind == Join && |a.ops| <= |later.ops| &&
            (Resolved(later, Awaits(r)) ==> later.ops[|a.ops| - 1].status.Settled?)
  {
    var past :| Run(EMPTY, past) == r;
    RunKeeps(EMPTY, past);
    NextKeeps(r, DoAcquire);
    SettledStaysRun(Acquire(r), events, |Acquire(r).ops| - 1);
  }
}
