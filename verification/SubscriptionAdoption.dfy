/**
 Which live queries are adopted once everything has settled: exactly those whose newest
 request did not fail.
 */
module SubscriptionAdoption {
  import opened Options
  import opened SubscriptionInvariant
  import opened SubscriptionTheorems
  import opened Subscriptions

  /**
   The requests that fail in a step: made on a closed socket, timed out while waiting, lost
   with the connection they waited on, or refused by the server.
   */
  function FailsNow(s: State, e: Event): set<Ticket> {
    match e
    case DoSubscribe(hash) =>
      if s.phase.Offline? && !(hash in s.client.table && s.client.table[hash] < |s.client.records|)
      then {Ticket(|s.client.records|, 1)} else {}
    case DoTimeOut(t) => if t in s.pending then {t} else {}
    case DoDrop => s.pending
    case DoDisconnect => s.pending
    case DoContinue(t) => if t in s.wire && s.wire[t] == Continuation(false) then {t} else {}
    case _ => {}
  }

  /** The requests that have failed by the end of a run. */
  function Failed(s: State, events: seq<Event>): set<Ticket>
    decreases |events|
  {
    if events == [] then {} else FailsNow(s, events[0]) + Failed(Next(s, events[0]), events[1..])
  }

  /** The newest request of a record. */
  function Newest(c: Client, r: nat): Ticket
    requires r < |c.records|
  {
    Ticket(r, c.records[r].generation)
  }

  /** Where a record's newest request stands, given the id it has adopted. */
  predicate Stands(s: State, failed: set<Ticket>, t: Ticket, subId: Option<Ticket>) {
    if t in failed then
      subId.None? && t !in s.pending && (t in s.wire ==> s.wire[t].Request? || s.wire[t].Reply?)
    else if subId.Some? then
      subId == Some(t) && t !in s.pending && t !in s.wire
    else
      t in s.wire && (if t in s.pending then s.wire[t].Request? || s.wire[t].Reply? else s.wire[t].Continuation?)
  }

  predicate Tracked(s: State, failed: set<Ticket>, r: nat)
    requires r < |s.client.records|
  {
    Stands(s, failed, Newest(s.client, r), s.client.records[r].subId)
  }

  ghost predicate AllTracked(s: State, failed: set<Ticket>) {
    && (forall r: nat | Live(s.client, r) :: Tracked(s, failed, r))
    && (forall t | t in failed :: Issued(s.client, t))
    && (forall t | t in s.pending :: Issued(s.client, t))
  }

  /** The record is as it was, as far as its requests go. */
  predicate SameRecord(c: Client, d: Client, r: nat) {
    Live(c, r) && r < |d.records| && d.records[r].generation == c.records[r].generation && d.records[r].subId == c.records[r].subId
  }

  /** Nothing has moved for this ticket. */
  predicate SamePlace(s: State, n: State, failed: set<Ticket>, f: set<Ticket>, t: Ticket) {
    && (t in failed <==> t in f) && (t in s.pending <==> t in n.pending)
    && (t in s.wire <==> t in n.wire) && (t in s.wire ==> s.wire[t] == n.wire[t])
  }

  lemma StillTracked(s: State, n: State, failed: set<Ticket>, f: set<Ticket>, r: nat)
    requires AllTracked(s, failed) && SameRecord(s.client, n.client, r) && SamePlace(s, n, failed, f, Newest(s.client, r))
    ensures Tracked(n, f, r)
  {
    assert Tracked(s, failed, r);
  }

  lemma JoinedRecord(c: Client, hash: string, r: nat)
    requires Counted(c) && hash in c.table && Live(Joined(c, c.table[hash]), r)
    ensures SameRecord(c, Joined(c, c.table[hash]), r)
  {
    JoinCounts(c, c.table[hash]);
  }

  lemma CreatedRecord(c: Client, hash: string, r: nat)
    requires Counted(c) && hash !in c.table && Live(Bump(Created(c, hash), |c.records|), r)
    ensures r == |c.records| || SameRecord(c, Bump(Created(c, hash), |c.records|), r)
  {
    CreateLive(c, hash, r);
    CreateLive(c, hash, |c.records|);
    CreateCounts(c, hash);
    BumpCounts(Created(c, hash), |c.records|);
  }

  lemma JoinTracked(s: State, failed: set<Ticket>, hash: string)
    requires Inv(s) && AllTracked(s, failed) && hash in s.client.table
    ensures AllTracked(Subscribe(s, hash), failed)
  {
    var n := Subscribe(s, hash);
    forall r: nat | Live(n.client, r) ensures Tracked(n, failed, r) {
      JoinedRecord(s.client, hash, r);
      StillTracked(s, n, failed, failed, r);
    }
  }

  lemma CreateTracked(s: State, failed: set<Ticket>, hash: string, n: State, f: set<Ticket>)
    requires Inv(s) && AllTracked(s, failed) && hash !in s.client.table
    requires n == Subscribe(s, hash) && f == failed + FailsNow(s, DoSubscribe(hash))
    ensures AllTracked(n, f)
  {
    hide SubscriptionInvariant.Adopted, Wired;
    var q := |s.client.records|;
    var t := Ticket(q, 1);
    UnissuedUnused(s, t);
    assert n.client == Bump(Created(s.client, hash), q);
    assert Newest(n.client, q) == t && n.client.records[q].subId == None;
    forall r: nat | Live(n.client, r) ensures Tracked(n, f, r) {
      CreatedRecord(s.client, hash, r);
      if r != q { StillTracked(s, n, failed, f, r); }
    }
  }

  lemma UnsubscribedRecord(c: Client, h: nat, closed: Client, q: nat, r: nat)
    requires h < |c.handles| && closed == Closed(c, h) && q == c.handles[h].record
    requires Live(if Live(closed, q) then Released(closed, q) else closed, r)
    ensures SameRecord(c, if Live(closed, q) then Released(closed, q) else closed, r)
    ensures r == q && Live(closed, q) ==> closed.records[q].refCount > 1
  {
    CloseLive(c, h, r);
    CloseLive(c, h, q);
    if Live(closed, q) { ReleaseLive(closed, q, r); }
  }

  /** The unsub of a last handle is about its own record. */
  lemma OnlyItsOwn(s: State, n: State, h: nat, q: nat, closed: Client, t: Ticket)
    requires Inv(s) && n == Unsubscribe(s, h) && h < |s.client.handles| && s.client.handles[h].open
    requires closed == Closed(s.client, h) && q == s.client.handles[h].record
    requires t.record == q && Live(closed, q) ==> closed.records[q].refCount > 1
    ensures (t in s.wire <==> t in n.wire) && (t in s.wire ==> s.wire[t] == n.wire[t])
  {
    CloseLive(s.client, h, q);
  }

  lemma UnsubscribeTracked(s: State, failed: set<Ticket>, h: nat)
    requires Inv(s) && AllTracked(s, failed)
    ensures AllTracked(Unsubscribe(s, h), failed)
  {
    hide Inv, SubscriptionInvariant.Counted, Tracked;
    var c, n := s.client, Unsubscribe(s, h);
    if h < |c.handles| && c.handles[h].open {
      var q, closed := c.handles[h].record, Closed(c, h);
      var d := if Live(closed, q) then Released(closed, q) else closed;
      CloseLive(c, h, q);
      assert n.client == d && n.pending == s.pending;
      forall r: nat | Live(d, r) ensures Tracked(n, failed, r) {
        UnsubscribedRecord(c, h, closed, q, r);
        OnlyItsOwn(s, n, h, q, closed, Newest(c, r));
        StillTracked(s, n, failed, failed, r);
      }
    }
  }

  lemma TransitOf(s: State, t: Ticket)
    requires Inv(s) && t in s.wire
    ensures Transit(s, t, s.wire[t])
  {
  }

  lemma ContinueTracked(s: State, failed: set<Ticket>, t: Ticket, n: State, f: set<Ticket>)
    requires Inv(s) && AllTracked(s, failed) && n == Continue(s, t) && f == failed + FailsNow(s, DoContinue(t))
    ensures AllTracked(n, f)
  {
    hide Inv;
    if t in s.wire && s.wire[t].Continuation? {
      TransitOf(s, t);
      forall r: nat | Live(n.client, r) ensures Tracked(n, f, r) {
        assert Live(s.client, r);
        if Newest(s.client, r) == t {
          assert Tracked(s, failed, r);
        } else {
          StillTracked(s, n, failed, f, r);
        }
      }
    }
  }

  /** The socket goes: every waiting request is lost. */
  lemma DropTracked(s: State, failed: set<Ticket>, n: State, f: set<Ticket>)
    requires AllTracked(s, failed) && n == Drop(s) && f == failed + s.pending
    ensures AllTracked(n, f)
  {
    forall r: nat | Live(n.client, r) ensures Tracked(n, f, r) {
      assert Tracked(s, failed, r);
    }
  }

  lemma DisconnectTracked(s: State, failed: set<Ticket>)
    requires AllTracked(s, failed)
    ensures AllTracked(Disconnect(s), failed + s.pending)
  {
    assert forall r: nat :: !Live(Disconnect(s).client, r);
  }

  lemma ReopenedRecord(c: Client, d: Client, r: nat)
    requires Counted(c) && d == Reopened(c) && Live(d, r)
    ensures Live(c, r) && r in c.hooks && d.records[r].subId == None
    ensures Newest(d, r) == Ticket(r, c.records[r].generation + 1) && Newest(d, r) in HookTickets(c)
  {
    assert Live(c, r);
  }

  lemma ReopenedTicket(s: State, n: State, tickets: set<Ticket>, t: Ticket)
    requires s.phase.Authenticating? && s.hasConnected && n == Authenticated(s) && tickets == HookTickets(s.client) && t in tickets
    ensures t in n.pending && t in n.wire && n.wire[t] == Request
  {
  }

  /** A reconnect asks anew for every live record. */
  lemma AuthenticatedTracked(s: State, failed: set<Ticket>, n: State)
    requires Inv(s) && AllTracked(s, failed) && n == Authenticated(s)
    ensures AllTracked(n, failed)
  {
    if s.phase.Authenticating? && s.hasConnected {
      ReopenCounts(s.client);
      forall r: nat | Live(n.client, r) ensures Tracked(n, failed, r) {
        ReopenedRecord(s.client, n.client, r);
        ReopenedTicket(s, n, HookTickets(s.client), Newest(n.client, r));
      }
      forall t | t in n.pending ensures Issued(n.client, t) {
      }
    } else {
      forall r: nat | Live(n.client, r) ensures Tracked(n, failed, r) { StillTracked(s, n, failed, failed, r); }
    }
  }

  /** What happens to messages about one ticket leaves every other where it stands. */
  lemma WireTracked(s: State, failed: set<Ticket>, e: Event, t: Ticket, n: State, f: set<Ticket>)
    requires AllTracked(s, failed) && n == Next(s, e) && f == failed + FailsNow(s, e)
    requires (e.DoServe? && e.t == t) || e == DoServeUnsub(t) || e == DoDeliver(t) || e == DoTimeOut(t)
    ensures AllTracked(n, f)
  {
    forall r: nat | Live(n.client, r) ensures Tracked(n, f, r) {
      if Newest(s.client, r) == t {
        assert Tracked(s, failed, r);
      } else {
        StillTracked(s, n, failed, f, r);
      }
    }
  }

  lemma NextTracked(s: State, failed: set<Ticket>, e: Event)
    requires Inv(s) && AllTracked(s, failed)
    ensures AllTracked(Next(s, e), failed + FailsNow(s, e))
  {
    var n, f := Next(s, e), failed + FailsNow(s, e);
    assert failed + {} == failed;
    match e {
      case DoSubscribe(hash) =>
        if hash in s.client.table { JoinTracked(s, failed, hash); } else { CreateTracked(s, failed, hash, n, f); }
      case DoUnsubscribe(h) => UnsubscribeTracked(s, failed, h);
      case DoContinue(t) => ContinueTracked(s, failed, t, n, f);
      case DoConnect =>
        forall r: nat | Live(n.client, r) ensures Tracked(n, f, r) { StillTracked(s, n, failed, f, r); }
      case DoAuthenticated => AuthenticatedTracked(s, failed, n);
      case DoDrop => DropTracked(s, failed, n, f);
      case DoDisconnect => DisconnectTracked(s, failed);
      case DoServe(t, _) => WireTracked(s, failed, e, t, n, f);
      case DoServeUnsub(t) => WireTracked(s, failed, e, t, n, f);
      case DoDeliver(t) => WireTracked(s, failed, e, t, n, f);
      case DoTimeOut(t) => WireTracked(s, failed, e, t, n, f);
    }
  }

  lemma {:induction false} RunTracked(s: State, failed: set<Ticket>, events: seq<Event>)
    requires Inv(s) && AllTracked(s, failed)
    ensures AllTracked(Run(s, events), failed + Failed(s, events))
    decreases |events|
  {
    if events == [] {
      assert failed + {} == failed;
    } else {
      var now := FailsNow(s, events[0]);
      NextTracked(s, failed, events[0]);
      NextKeeps(s, events[0]);
      RunTracked(Next(s, events[0]), failed + now, events[1..]);
      assert (failed + now) + Failed(Next(s, events[0]), events[1..]) == failed + Failed(s, events);
    }
  }

  /**
   When everything has settled, a live query has adopted the subscription of its newest
   request, which the server holds, if that request did not fail; and has none if it did.
   */
  lemma AdoptedUnlessFailed(events: seq<Event>, r: nat)
    requires var s := Run(INITIAL, events); Quiescent(s) && Live(s.client, r)
    ensures var s := Run(INITIAL, events);
            var t := Newest(s.client, r);
            if t in Failed(INITIAL, events) then s.client.records[r].subId == None
            else s.client.records[r].subId == Some(t) && t in s.handlers && t in s.server
  {
    var s := Run(INITIAL, events);
    Initially();
    RunKeeps(INITIAL, events);
    RunTracked(INITIAL, {}, events);
    assert Tracked(s, {} + Failed(INITIAL, events), r);
  }

  lemma RunThree(s: State, a: Event, b: Event, c: Event, t: State, u: State)
    requires t == Next(s, a) && u == Next(t, b)
    ensures Run(s, [a, b, c]) == Next(u, c)
    ensures Failed(s, [a, b, c]) == FailsNow(s, a) + (FailsNow(t, b) + FailsNow(u, c))
  {
    hide FailsNow, Next;
    LastOf(u, c);
    assert [b, c][1..] == [c];
    assert [a, b, c][1..] == [b, c];
  }

  lemma LastOf(u: State, c: Event)
    ensures Run(u, [c]) == Next(u, c) && Failed(u, [c]) == FailsNow(u, c)
  {
    hide FailsNow, Next;
    assert [c][1..] == [];
    assert Run(Next(u, c), []) == Next(u, c) && Failed(Next(u, c), []) == {};
  }

  /**
   A query subscribed before the first connection is never asked for: its request fails on the
   closed socket, and only a reconnect asks again.
   */
  lemma SubscribedBeforeConnecting(hash: string)
    ensures var events := [DoSubscribe(hash), DoConnect, DoAuthenticated];
            var s := Run(INITIAL, events);
            Quiescent(s) && Live(s.client, 0) && s.client.records[0].subId == None && s.server == {} &&
            Failed(INITIAL, events) == {Newest(s.client, 0)}
  {
    var t := Next(INITIAL, DoSubscribe(hash));
    RunThree(INITIAL, DoSubscribe(hash), DoConnect, DoAuthenticated, t, Connect(t));
    var d := Created(INITIAL.client, hash);
    assert d == Client([Active(hash, 1, None, 0)], map[hash := 0], {0}, [Handle(0, true)]);
    assert Bump(d, 0).records == [Active(hash, 1, None, 1)];
  }
}
