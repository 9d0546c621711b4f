/**
 What the subscription protocol guarantees over every run.
 */
module SubscriptionTheorems {
  import opened Options
  import opened SubscriptionInvariant
  import opened Subscriptions

  ghost predicate Reachable(s: State) {
    exists events: seq<Event> :: Run(INITIAL, events) == s
  }

  lemma ReachableInv(s: State)
    requires Reachable(s)
    ensures Inv(s)
  {
    var events :| Run(INITIAL, events) == s;
    Initially();
    RunKeeps(INITIAL, events);
  }

  /** The subscription ids the live records have adopted. */
  ghost predicate AdoptedBy(s: State, t: Ticket) {
    exists r: nat :: Live(s.client, r) && s.client.records[r].subId == Some(t)
  }

  /** In every reachable state a record's reference count is the number of its open handles, and it is live while there are any in the table. */
  lemma RefCountIsOpenHandles(s: State, r: nat)
    requires Reachable(s) && Live(s.client, r)
    ensures s.client.records[r].refCount == |OpenOf(s.client.handles, r)| && s.client.records[r].refCount > 0
    ensures r in s.client.hooks
  {
    ReachableInv(s);
  }

  /** There is at most one adopted server subscription for a query, and a push handler for exactly the adopted ones. */
  lemma OneSubscriptionPerQuery(s: State, t: Ticket, u: Ticket)
    requires Reachable(s) && AdoptedBy(s, t)
    ensures t.record < |s.client.records| && t in s.handlers
    ensures (AdoptedBy(s, u) && u.record < |s.client.records| &&
             s.client.records[t.record].hash == s.client.records[u.record].hash) ==> t == u
    ensures u in s.handlers ==> AdoptedBy(s, u)
  {
    ReachableInv(s);
    if u in s.handlers { assert Live(s.client, u.record); }
  }

  // ----- quiescence -----

  /** The socket is open and nothing is on the wire or waiting to run. */
  predicate Quiescent(s: State) {
    s.phase.Online? && s.wire == map[]
  }

  /**
   When everything has settled, the server holds the adopted subscriptions and the orphans,
   which no record adopted; so it holds exactly the adopted ones if and only if no sub-ok
   arrived after its request had timed out.
   */
  lemma QuiescentServer(s: State)
    requires Reachable(s) && Quiescent(s)
    ensures s.server == s.handlers.Keys + s.orphans && s.handlers.Keys !! s.orphans
    ensures (forall t :: t in s.server <==> AdoptedBy(s, t)) <==> s.orphans == {}
  {
    ReachableInv(s);
    forall t ensures t in s.server <==> t in s.handlers.Keys + s.orphans {
      if t in s.server { assert Accounted(s, t); }
    }
    forall t ensures AdoptedBy(s, t) <==> t in s.handlers {
      if t in s.handlers { assert Live(s.client, t.record); }
    }
    if s.orphans != {} {
      var t :| t in s.orphans;
      assert t in s.server && !AdoptedBy(s, t);
    }
  }

  /** Every request or reply on the wire is still waited for. */
  ghost predicate Awaited(s: State) {
    s.orphans == {} && forall t | t in s.wire && (s.wire[t].Request? || s.wire[t].Reply?) :: t in s.pending
  }

  lemma AwaitedAfter(s: State, n: State)
    requires Awaited(s) && n.orphans == {}
    requires forall t | t in n.wire && (n.wire[t].Request? || n.wire[t].Reply?) ::
               t in n.pending || (t in s.wire && (s.wire[t].Request? || s.wire[t].Reply?) && (t in s.pending ==> t in n.pending))
    ensures Awaited(n)
  {
  }

  lemma UnsubscribeAwaited(s: State, h: nat)
    requires Inv(s) && Awaited(s)
    ensures Awaited(Unsubscribe(s, h))
  {
    AwaitedAfter(s, Unsubscribe(s, h));
  }

  lemma AuthenticatedAwaited(s: State)
    requires Awaited(s)
    ensures Awaited(Authenticated(s))
  {
    AwaitedAfter(s, Authenticated(s));
  }

  lemma WireAwaited(s: State, e: Event)
    requires Awaited(s)
    requires e.DoServe? || e.DoServeUnsub? || e.DoContinue? || e.DoConnect? || e.DoDrop? || e.DoDisconnect?
    ensures Awaited(Next(s, e))
  {
    AwaitedAfter(s, Next(s, e));
  }

  lemma NextAwaited(s: State, e: Event)
    requires Inv(s) && Awaited(s) && !e.DoTimeOut?
    ensures Awaited(Next(s, e))
  {
    match e {
      case DoUnsubscribe(h) => UnsubscribeAwaited(s, h);
      case DoAuthenticated => AuthenticatedAwaited(s);
      case DoSubscribe(hash) => AwaitedAfter(s, Subscribe(s, hash));
      case DoDeliver(t) => AwaitedAfter(s, Deliver(s, t));
      case _ => WireAwaited(s, e);
    }
  }

  lemma {:induction false} RunAwaited(s: State, events: seq<Event>)
    requires Inv(s) && Awaited(s) && forall e | e in events :: !e.DoTimeOut?
    ensures Awaited(Run(s, events))
    decreases |events|
  {
    if events != [] {
      assert events[0] in events && forall e | e in events[1..] :: e in events;
      NextAwaited(s, events[0]);
      NextKeeps(s, events[0]);
      RunAwaited(Next(s, events[0]), events[1..]);
    }
  }

  /** Without request time-outs the server ends up with exactly the adopted subscriptions. */
  lemma NoTimeOutNoLeak(events: seq<Event>)
    requires forall e | e in events :: !e.DoTimeOut?
    requires Quiescent(Run(INITIAL, events))
    ensures var s := Run(INITIAL, events); forall t :: t in s.server <==> AdoptedBy(s, t)
  {
    Initially();
    RunAwaited(INITIAL, events);
    QuiescentServer(Run(INITIAL, events));
  }

  lemma {:induction false} RunAppend(s: State, events: seq<Event>, e: Event)
    ensures Run(s, events + [e]) == Next(Run(s, events), e)
    decreases |events|
  {
    if events == [] {
      assert [] + [e] == [e];
    } else {
      assert (events + [e])[1..] == events[1..] + [e];
      RunAppend(Next(s, events[0]), events[1..], e);
    }
  }

  lemma ReachableNext(s: State, e: Event)
    requires Reachable(s)
    ensures Reachable(Next(s, e))
  {
    var events :| Run(INITIAL, events) == s;
    RunAppend(INITIAL, events, e);
  }

  const ONLINE := INITIAL.(phase := Online, hasConnected := true)

  const WAITING := ONLINE.(
    client := Client([Active("q", 1, None, 1)], map["q" := 0], {0}, [Handle(0, true)]),
    pending := {Ticket(0, 1)}, wire := map[Ticket(0, 1) := Request])

  lemma FirstSubscription(s: State)
    requires s.phase.Online? && s.client == Client([], map[], {}, []) && s.pending == {} && s.wire == map[]
    ensures Subscribe(s, "q") == s.(client := WAITING.client, pending := WAITING.pending, wire := WAITING.wire)
  {
    var d := Created(s.client, "q");
    assert d == Client([Active("q", 1, None, 0)], map["q" := 0], {0}, [Handle(0, true)]);
    assert Bump(d, 0) == WAITING.client;
  }

  lemma WaitingReachable()
    ensures Reachable(WAITING)
  {
    assert Run(INITIAL, []) == INITIAL;
    ReachableNext(INITIAL, DoConnect);
    ReachableNext(Connect(INITIAL), DoAuthenticated);
    FirstSubscription(ONLINE);
    ReachableNext(ONLINE, DoSubscribe("q"));
  }

  lemma LateReply(s: State, t: Ticket)
    requires s.phase.Online? && t in s.wire && s.wire[t].Request?
    ensures var n := Deliver(TimeOut(Serve(s, t, true), t), t);
            n.phase.Online? && n.wire == s.wire - {t} && n.handlers == s.handlers && t in n.server && t in n.orphans
  {
  }

  lemma ReachableThree(s: State, a: Event, b: Event, c: Event)
    requires Reachable(s)
    ensures Reachable(Next(Next(Next(s, a), b), c))
  {
    ReachableNext(s, a);
    ReachableNext(Next(s, a), b);
    ReachableNext(Next(Next(s, a), b), c);
  }

  /** Any request that times out before its sub-ok arrives leaves a registration nobody releases. */
  lemma TimeOutOrphans(s: State, t: Ticket) returns (n: State)
    requires Reachable(s) && s.phase.Online? && t in s.wire && s.wire[t].Request?
    ensures Reachable(n) && n.phase.Online? && n.wire == s.wire - {t} && n.handlers == s.handlers
    ensures t in n.server && t in n.orphans
  {
    ReachableThree(s, DoServe(t, true), DoTimeOut(t), DoDeliver(t));
    LateReply(s, t);
    n := Deliver(TimeOut(Serve(s, t, true), t), t);
  }

  /** One subscribe whose request times out: everything settles, nothing is adopted, the server keeps a registration. */
  lemma TimeOutLeaks() returns (s: State)
    ensures Reachable(s) && Quiescent(s) && s.handlers == map[] && s.server != {}
  {
    WaitingReachable();
    s := TimeOutOrphans(WAITING, Ticket(0, 1));
    assert s.wire == WAITING.wire - {Ticket(0, 1)} == map[];
  }

  // ----- superseded replies -----

  /** On an open connection a sub-ok that is not adopted is handed back to the server. */
  lemma SupersededIsReleased(s: State, t: Ticket)
    requires t in s.wire && s.wire[t] == Continuation(true) && !s.phase.Offline? && !Current(s.client, t)
    ensures var n := Continue(s, t); t in n.wire && n.wire[t] == Unsub && n.handlers == s.handlers && n.client == s.client
    ensures t !in ServeUnsub(Continue(s, t), t).server
  {
  }

  // ----- ended sessions -----

  /** Records and handles are never renumbered, and a record that is not live stays so. */
  ghost predicate Stays(c: Client, d: Client, r: nat) {
    && r < |d.records| && !Live(d, r) && |d.handles| >= |c.handles|
    && forall h | 0 <= h < |c.handles| :: d.handles[h].record == c.handles[h].record
  }

  lemma SubscribeDead(s: State, hash: string, r: nat)
    requires Counted(s.client) && r < |s.client.records| && !Live(s.client, r)
    ensures Stays(s.client, Subscribe(s, hash).client, r)
  {
    var c := s.client;
    if hash in c.table {
      JoinCounts(c, c.table[hash]);
    } else {
      CreateLive(c, hash, r);
      CreateCounts(c, hash);
      CreateLive(c, hash, |c.records|);
      BumpCounts(Created(c, hash), |c.records|);
    }
  }

  lemma UnsubscribeDead(s: State, h: nat, r: nat)
    requires Counted(s.client) && r < |s.client.records| && !Live(s.client, r)
    ensures Stays(s.client, Unsubscribe(s, h).client, r)
  {
    var c := s.client;
    if h < |c.handles| && c.handles[h].open {
      var q, closed := c.handles[h].record, Closed(c, h);
      CloseLive(c, h, r);
      if Live(closed, q) { ReleaseLive(closed, q, r); }
    }
  }

  lemma NextDead(s: State, e: Event, r: nat)
    requires Counted(s.client) && r < |s.client.records| && !Live(s.client, r)
    ensures Stays(s.client, Next(s, e).client, r)
  {
    match e {
      case DoSubscribe(hash) => SubscribeDead(s, hash, r);
      case DoUnsubscribe(h) => UnsubscribeDead(s, h, r);
      case _ =>
    }
  }

  lemma {:induction false} RunDead(s: State, events: seq<Event>, r: nat)
    requires Inv(s) && r < |s.client.records| && !Live(s.client, r)
    ensures Stays(s.client, Run(s, events).client, r)
    decreases |events|
  {
    if events != [] {
      NextDead(s, events[0], r);
      NextKeeps(s, events[0]);
      RunDead(Next(s, events[0]), events[1..], r);
    }
  }

  /** A handle from before a session end does nothing, whatever has happened since: it only marks itself used. */
  lemma EndedHandleDoesNothing(s: State, events: seq<Event>, h: nat)
    requires Reachable(s) && h < |s.client.handles|
    ensures var n := Run(Disconnect(s), events);
            h < |n.client.handles| && Unsubscribe(n, h).(client := n.client) == n &&
            Unsubscribe(n, h).client.(handles := n.client.handles) == n.client
  {
    ReachableInv(s);
    var d := Disconnect(s);
    DisconnectKeeps(s);
    RunDead(d, events, s.client.handles[h].record);
    var n := Run(d, events);
    CloseLive(n.client, h, n.client.handles[h].record);
  }

  // ----- every open connection can settle -----

  function With(wire: map<Ticket, Message>, stage: int): set<Ticket> {
    set t | t in wire && Stage(wire[t]) == stage
  }

  function Stage(m: Message): int {
    match m case Request => 0 case Reply(_) => 1 case Continuation(_) => 2 case Unsub => 3
  }

  /** The event that moves the message about a ticket on. */
  function Move(t: Ticket, m: Message): Event {
    match m
    case Request => DoServe(t, true)
    case Reply(_) => DoDeliver(t)
    case Continuation(_) => DoContinue(t)
    case Unsub => DoServeUnsub(t)
  }

  lemma MoveMoves(s: State, t: Ticket)
    requires s.phase.Online? && t in s.wire
    ensures var n := Next(s, Move(t, s.wire[t]));
            n.phase.Online? && n.wire - {t} == s.wire - {t} && (t in n.wire ==> Stage(n.wire[t]) > Stage(s.wire[t]))
  {
  }

  lemma StageShrinks(a: map<Ticket, Message>, b: map<Ticket, Message>, t: Ticket, stage: int)
    requires t in a && a - {t} == b - {t} && (t in b ==> Stage(b[t]) > Stage(a[t])) && stage <= Stage(a[t])
    ensures With(b, stage) == With(a, stage) - {t}
    ensures |With(b, stage)| == |With(a, stage)| - (if Stage(a[t]) == stage then 1 else 0)
  {
    forall x ensures x in With(b, stage) <==> x in With(a, stage) - {t} {
      if x != t { assert x in a - {t} <==> x in b - {t}; }
    }
  }

  /** Delivering what is on the wire and running what is waiting leads to quiescence. */
  lemma {:induction false} CanSettle(s: State) returns (events: seq<Event>)
    requires s.phase.Online?
    ensures Quiescent(Run(s, events))
    ensures forall e | e in events :: e.DoServe? || e.DoDeliver? || e.DoContinue? || e.DoServeUnsub?
    decreases |With(s.wire, 0)|, |With(s.wire, 1)|, |With(s.wire, 2)|, |With(s.wire, 3)|
  {
    if s.wire == map[] {
      events := [];
    } else {
      var t :| t in s.wire;
      var e := Move(t, s.wire[t]);
      var n := Next(s, e);
      MoveMoves(s, t);
      forall i | 0 <= i <= Stage(s.wire[t])
        ensures |With(n.wire, i)| == |With(s.wire, i)| - (if Stage(s.wire[t]) == i then 1 else 0)
      {
        StageShrinks(s.wire, n.wire, t, i);
      }
      var rest := CanSettle(n);
      events := [e] + rest;
      assert events[1..] == rest;
    }
  }
}
