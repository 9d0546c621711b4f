/**
 Who is using a query, read off the calls of a run alone: subscribe calls return handles
 0, 1, 2, …, and a handle is given up by unsubscribing it or by ending the session.
 */
module SubscriptionUse {
  import opened Options
  import opened SubscriptionInvariant
  import opened SubscriptionTheorems
  import opened Subscriptions

  /** The number of subscribe calls, which is the handle the next one returns. */
  function Subscribes(events: seq<Event>): nat {
    if events == [] then 0
    else Subscribes(events[..|events| - 1]) + (if events[|events| - 1].DoSubscribe? then 1 else 0)
  }

  /** The handles on a query that have been returned and not given up. */
  function Users(events: seq<Event>, hash: string): set<nat> {
    if events == [] then {}
    else
      var front := events[..|events| - 1];
      match events[|events| - 1]
      case DoSubscribe(asked) => if asked == hash then Users(front, hash) + {Subscribes(front)} else Users(front, hash)
      case DoUnsubscribe(h) => Users(front, hash) - {h}
      case DoDisconnect => {}
      case _ => Users(front, hash)
  }

  lemma {:induction false} SubscribesMonotone(events: seq<Event>, n: nat)
    requires n <= |events|
    ensures Subscribes(events[..n]) <= Subscribes(events)
    decreases |events|
  {
    if n == |events| {
      assert events[..n] == events;
    } else {
      var front := events[..|events| - 1];
      SubscribesMonotone(front, n);
      assert front[..n] == events[..n];
    }
  }

  /** The call that returned a handle on a query, with nothing after it that gives the handle up. */
  ghost predicate HeldSince(events: seq<Event>, hash: string, h: nat, i: nat) {
    && i < |events| && events[i] == DoSubscribe(hash) && Subscribes(events[..i]) == h
    && DoUnsubscribe(h) !in events[i + 1..] && DoDisconnect !in events[i + 1..]
  }

  lemma HeldBefore(events: seq<Event>, e: Event, hash: string, h: nat, i: nat)
    requires i < |events|
    ensures HeldSince(events + [e], hash, h, i) <==> HeldSince(events, hash, h, i) && e != DoUnsubscribe(h) && e != DoDisconnect
  {
    assert (events + [e])[..i] == events[..i];
    assert (events + [e])[i + 1..] == events[i + 1..] + [e];
  }

  lemma HeldNow(events: seq<Event>, e: Event, hash: string, h: nat)
    ensures HeldSince(events + [e], hash, h, |events|) <==> e == DoSubscribe(hash) && Subscribes(events) == h
  {
    assert (events + [e])[..|events|] == events;
    assert (events + [e])[|events| + 1..] == [];
  }

  /** A handle is in use exactly if its subscribe call was made and nothing has given it up since. */
  lemma {:induction false} UsersAreHolders(events: seq<Event>, hash: string, h: nat)
    ensures h in Users(events, hash) <==> exists i: nat :: HeldSince(events, hash, h, i)
    decreases |events|
  {
    if events != [] {
      var front, e := events[..|events| - 1], events[|events| - 1];
      assert front + [e] == events;
      UsersAreHolders(front, hash, h);
      HeldNow(front, e, hash, h);
      forall i: nat | i < |front|
        ensures HeldSince(events, hash, h, i) <==> HeldSince(front, hash, h, i) && e != DoUnsubscribe(h) && e != DoDisconnect
      {
        HeldBefore(front, e, hash, h, i);
      }
    }
  }

  // ----- the client agrees with the calls -----

  ghost predicate Agrees(c: Client, events: seq<Event>) {
    && |c.handles| == Subscribes(events)
    && (forall hash | hash in c.table :: OpenOf(c.handles, c.table[hash]) == Users(events, hash))
    && (forall hash | hash !in c.table :: Users(events, hash) == {})
  }

  lemma UsersAfter(events: seq<Event>, e: Event, hash: string)
    ensures Subscribes(events + [e]) == Subscribes(events) + (if e.DoSubscribe? then 1 else 0)
    ensures Users(events + [e], hash) ==
            if e.DoSubscribe? then (if e.hash == hash then Users(events, hash) + {Subscribes(events)} else Users(events, hash))
            else if e.DoUnsubscribe? then Users(events, hash) - {e.handle}
            else if e.DoDisconnect? then {}
            else Users(events, hash)
  {
    assert (events + [e])[..|events|] == events;
  }

  lemma OpenedHandle(hs: seq<Handle>, r: nat, q: nat)
    ensures OpenOf(hs + [Handle(r, true)], q) == if q == r then OpenOf(hs, q) + {|hs|} else OpenOf(hs, q)
  {
  }

  lemma ClosedHandle(hs: seq<Handle>, h: nat, q: nat)
    requires h < |hs|
    ensures OpenOf(hs[h := hs[h].(open := false)], q) == OpenOf(hs, q) - {h}
  {
  }

  lemma SubscribeAgrees(s: State, events: seq<Event>, asked: string)
    requires Inv(s) && Agrees(s.client, events)
    ensures Agrees(Subscribe(s, asked).client, events + [DoSubscribe(asked)])
  {
    var c, d := s.client, Subscribe(s, asked).client;
    var more := events + [DoSubscribe(asked)];
    UsersAfter(events, DoSubscribe(asked), asked);
    var r := if asked in c.table then c.table[asked] else |c.records|;
    assert d.handles == c.handles + [Handle(r, true)];
    forall hash | hash in d.table ensures OpenOf(d.handles, d.table[hash]) == Users(more, hash) {
      UsersAfter(events, DoSubscribe(asked), hash);
      OpenedHandle(c.handles, r, d.table[hash]);
      if hash !in c.table { assert OpenOf(c.handles, r) == {}; }
    }
    forall hash | hash !in d.table ensures Users(more, hash) == {} { UsersAfter(events, DoSubscribe(asked), hash); }
  }

  /** A record whose count reaches zero has no open handle left. */
  lemma LastHandle(c: Client, h: nat)
    requires Counted(c) && h < |c.handles| && c.handles[h].open && Live(c, c.handles[h].record)
    ensures var r := c.handles[h].record;
            c.records[r].refCount <= 1 ==> OpenOf(c.handles, r) - {h} == {}
  {
    var r := c.handles[h].record;
    ClosedOne(c.handles, h, r);
    ClosedHandle(c.handles, h, r);
  }

  /** What an unsubscribe leaves: the handle closed, and the query out of the table with its last user. */
  lemma UnsubscribeLeaves(s: State, h: nat)
    ensures var c, d := s.client, Unsubscribe(s, h).client;
            && |d.handles| == |c.handles|
            && (forall q: nat :: OpenOf(d.handles, q) == OpenOf(c.handles, q) - {h})
            && d.table == if h < |c.handles| && c.handles[h].open && Live(c, c.handles[h].record) && c.records[c.handles[h].record].refCount <= 1
                          then c.table - {c.records[c.handles[h].record].hash} else c.table
  {
    var c, d := s.client, Unsubscribe(s, h).client;
    forall q: nat ensures OpenOf(d.handles, q) == OpenOf(c.handles, q) - {h} {
      if h < |c.handles| { ClosedHandle(c.handles, h, q); }
    }
    if h < |c.handles| && c.handles[h].open { CloseLive(c, h, c.handles[h].record); }
  }

  lemma UnsubscribeAgrees(s: State, events: seq<Event>, h: nat)
    requires Inv(s) && Agrees(s.client, events)
    ensures Agrees(Unsubscribe(s, h).client, events + [DoUnsubscribe(h)])
  {
    hide Unsubscribe, Users, SubscriptionInvariant.Adopted, Wired, OpenOf;
    var c, d := s.client, Unsubscribe(s, h).client;
    var less := events + [DoUnsubscribe(h)];
    forall hash ensures Users(less, hash) == Users(events, hash) - {h} { UsersAfter(events, DoUnsubscribe(h), hash); }
    UsersAfter(events, DoUnsubscribe(h), "");
    UnsubscribeLeaves(s, h);
    if h < |c.handles| && c.handles[h].open && Live(c, c.handles[h].record) { LastHandle(c, h); }
  }

  lemma OtherAgrees(s: State, events: seq<Event>, e: Event)
    requires Agrees(s.client, events) && !e.DoSubscribe? && !e.DoUnsubscribe?
    requires Next(s, e).client.handles == s.client.handles
    requires Next(s, e).client.table == if e.DoDisconnect? then map[] else s.client.table
    ensures Agrees(Next(s, e).client, events + [e])
  {
    hide Next, Users, OpenOf;
    forall hash ensures Users(events + [e], hash) == if e.DoDisconnect? then {} else Users(events, hash) {
      UsersAfter(events, e, hash);
    }
    UsersAfter(events, e, "");
  }

  lemma NextAgrees(s: State, events: seq<Event>, e: Event)
    requires Inv(s) && Agrees(s.client, events)
    ensures Agrees(Next(s, e).client, events + [e])
  {
    hide Inv, Agrees;
    match e {
      case DoSubscribe(asked) => SubscribeAgrees(s, events, asked);
      case DoUnsubscribe(h) => UnsubscribeAgrees(s, events, h);
      case _ => OtherAgrees(s, events, e);
    }
  }

  lemma {:induction false} RunAgrees(events: seq<Event>)
    ensures Inv(Run(INITIAL, events)) && Agrees(Run(INITIAL, events).client, events)
    decreases |events|
  {
    Initially();
    RunKeeps(INITIAL, events);
    if events != [] {
      var front, e := events[..|events| - 1], events[|events| - 1];
      assert front + [e] == events;
      RunAgrees(front);
      RunAppend(INITIAL, front, e);
      NextAgrees(Run(INITIAL, front), front, e);
    }
  }

  // ----- what that says about the client and the server -----

  /**
   A query has a live record exactly while somebody uses it, and the record's reference count
   is the number of handles returned on the query and not given up.
   */
  lemma LiveWhileUsed(events: seq<Event>, hash: string)
    ensures var c := Run(INITIAL, events).client;
            && |c.handles| == Subscribes(events)
            && (hash in c.table <==> Users(events, hash) != {})
            && (hash in c.table ==>
                  var r := c.table[hash];
                  r < |c.records| && c.records[r].hash == hash && c.records[r].refCount == |Users(events, hash)| && r in c.hooks)
  {
    RunAgrees(events);
    var c := Run(INITIAL, events).client;
    if hash in c.table { assert Live(c, c.table[hash]); }
  }

  /** Once nobody uses a query, none of its records is live, is reopened on a reconnect, or receives pushes. */
  lemma UnusedIsGone(events: seq<Event>, hash: string, r: nat)
    requires Users(events, hash) == {}
    requires r < |Run(INITIAL, events).client.records| && Run(INITIAL, events).client.records[r].hash == hash
    ensures var s := Run(INITIAL, events);
            !Live(s.client, r) && r !in s.client.hooks && forall t :: t in s.handlers ==> t.record != r && s.handlers[t] != r
  {
    LiveWhileUsed(events, hash);
    RunAgrees(events);
  }

  /** When the last user of an adopted subscription unsubscribes on an open socket, the server is told, and drops it. */
  lemma LastUserReleases(events: seq<Event>, hash: string, h: nat, t: Ticket)
    requires Users(events, hash) == {h}
    requires var s := Run(INITIAL, events);
             !s.phase.Offline? && t in s.handlers && t.record < |s.client.records| && s.client.records[t.record].hash == hash
    ensures var n := Run(INITIAL, events + [DoUnsubscribe(h)]);
            && t !in n.handlers && t in n.wire && n.wire[t] == Unsub
            && t !in ServeUnsub(n, t).server
  {
    var s := Run(INITIAL, events);
    LiveWhileUsed(events, hash);
    RunAgrees(events);
    RunAppend(INITIAL, events, DoUnsubscribe(h));
    assert Current(s.client, t) && s.client.records[t.record].subId == Some(t);
    assert h in OpenOf(s.client.handles, t.record);
    CloseLive(s.client, h, t.record);
  }

  /** Every handle a run returned is unsubscribed later in it. */
  ghost predicate AllUnsubscribed(events: seq<Event>) {
    forall h: nat | h < Subscribes(events) :: GivenUp(events, h)
  }

  ghost predicate GivenUp(events: seq<Event>, h: nat) {
    exists j: nat :: GivenUpAt(events, h, j)
  }

  ghost predicate GivenUpAt(events: seq<Event>, h: nat, j: nat) {
    j < |events| && events[j] == DoUnsubscribe(h) && Subscribes(events[..j]) > h
  }

  lemma GivenUpIsNotHeld(events: seq<Event>, hash: string, h: nat, i: nat, j: nat)
    requires GivenUpAt(events, h, j)
    ensures !HeldSince(events, hash, h, i)
  {
    if j <= i < |events| {
      assert events[..i][..j] == events[..j];
      SubscribesMonotone(events[..i], j);
    } else if i < j {
      assert events[j] == events[i + 1..][j - i - 1];
    }
  }

  lemma NobodyLeft(events: seq<Event>, hash: string)
    requires AllUnsubscribed(events)
    ensures Users(events, hash) == {}
  {
    hide Users, Subscribes;
    forall h: nat ensures h !in Users(events, hash) {
      UsersAreHolders(events, hash, h);
      forall i: nat ensures !HeldSince(events, hash, h, i) { NotHeld(events, hash, h, i); }
    }
  }

  lemma NotHeld(events: seq<Event>, hash: string, h: nat, i: nat)
    requires AllUnsubscribed(events)
    ensures !HeldSince(events, hash, h, i)
  {
    if i < |events| && events[i].DoSubscribe? && Subscribes(events[..i]) == h {
      assert events[..i + 1] == events[..i] + [events[i]];
      UsersAfter(events[..i], events[i], hash);
      SubscribesMonotone(events, i + 1);
      assert GivenUp(events, h);
      var j: nat :| GivenUpAt(events, h, j);
      GivenUpIsNotHeld(events, hash, h, i, j);
    }
  }

  /**
   However a run went, if no request timed out and every handle was unsubscribed, then once
   everything has settled the server holds nothing for this client.
   */
  lemma AllGivenBack(events: seq<Event>)
    requires AllUnsubscribed(events)
    requires forall e | e in events :: !e.DoTimeOut?
    requires Quiescent(Run(INITIAL, events))
    ensures var s := Run(INITIAL, events);
            s.server == {} && s.client.table == map[] && s.client.hooks == {} && s.handlers == map[]
  {
    var s := Run(INITIAL, events);
    forall hash ensures hash !in s.client.table {
      NobodyLeft(events, hash);
      LiveWhileUsed(events, hash);
    }
    RunAgrees(events);
    NoTimeOutNoLeak(events);
    assert forall r: nat :: !Live(s.client, r);
  }
}
