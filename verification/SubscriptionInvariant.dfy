/**
 What every step of the subscription protocol keeps.
 */
module SubscriptionInvariant {
  import opened Options
  import opened Subscriptions

  function OpenOf(handles: seq<Handle>, r: nat): set<nat> {
    set h | 0 <= h < |handles| && handles[h] == Handle(r, true)
  }

  /** The table, the hooks and the reference counts describe the same live records. */
  ghost predicate Counted(c: Client) {
    && (forall hash | hash in c.table :: c.table[hash] < |c.records| && c.records[c.table[hash]].hash == hash)
    && (forall r: nat :: r in c.hooks <==> Live(c, r))
    && (forall r: nat | Live(c, r) :: c.records[r].refCount == |OpenOf(c.handles, r)| && c.records[r].refCount > 0)
    && (forall h | 0 <= h < |c.handles| :: c.handles[h].record < |c.records|)
  }

  /** The push handlers are exactly the adopted subscriptions of live records. */
  ghost predicate Adopted(c: Client, handlers: map<Ticket, nat>) {
    && (forall t | t in handlers :: Current(c, t) && handlers[t] == t.record && c.records[t.record].subId == Some(t))
    && (forall r: nat | Live(c, r) && c.records[r].subId.Some? :: c.records[r].subId.value in handlers && c.records[r].subId.value.record == r)
  }

  ghost predicate Issued(c: Client, t: Ticket) {
    t.record < |c.records| && t.generation <= c.records[t.record].generation
  }

  /** What a message in transit says about the server's side. */
  ghost predicate Transit(s: State, t: Ticket, m: Message) {
    && Issued(s.client, t) && t !in s.handlers && t !in s.orphans
    && match m
       case Request => t !in s.server && !s.phase.Offline?
       case Reply(ok) => (ok ==> t in s.server) && !s.phase.Offline?
       case Continuation(ok) =>
         s.hasConnected && (if s.phase.Online? then ok && Current(s.client, t) ==> t in s.server else t !in s.server)
       case Unsub => !s.phase.Offline?
  }

  /** A registration is adopted, orphaned, or the subject of a message in transit. */
  ghost predicate Accounted(s: State, t: Ticket) {
    t in s.handlers || t in s.orphans || (t in s.wire && (s.wire[t].Unsub? || (!s.wire[t].Request? && s.wire[t].ok)))
  }

  ghost predicate Wired(s: State) {
    && (forall t | t in s.wire :: Transit(s, t, s.wire[t]))
    && (forall t | t in s.server :: Issued(s.client, t) && Accounted(s, t))
    && (forall t | t in s.handlers :: s.hasConnected && (s.phase.Online? <==> t in s.server))
    && (forall t | t in s.orphans :: t in s.server && t !in s.handlers)
    && (s.phase.Offline? ==> s.server == {})
    && (s.phase.Online? ==> s.hasConnected)
  }

  ghost predicate Inv(s: State) {
    Counted(s.client) && Adopted(s.client, s.handlers) && Wired(s)
  }

  lemma Initially()
    ensures Inv(INITIAL)
  {
  }

  // ----- steps that leave the client's book-keeping alone -----

  lemma ServeKeeps(s: State, t: Ticket, accept: bool)
    requires Wired(s)
    ensures Wired(Serve(s, t, accept))
  {
    var n := Serve(s, t, accept);
    if n != s {
      assert Transit(s, t, s.wire[t]);
      forall x | x in n.wire ensures Transit(n, x, n.wire[x]) {
        if x != t { assert Transit(s, x, s.wire[x]); }
      }
      forall x | x in n.server ensures Issued(n.client, x) && Accounted(n, x) {
        if x != t { assert Accounted(s, x); }
      }
    }
  }

  lemma ServeUnsubKeeps(s: State, t: Ticket)
    requires Wired(s)
    ensures Wired(ServeUnsub(s, t))
  {
    var n := ServeUnsub(s, t);
    if n != s {
      assert Transit(s, t, s.wire[t]);
      forall x | x in n.wire ensures Transit(n, x, n.wire[x]) {
        assert Transit(s, x, s.wire[x]);
      }
      forall x | x in n.server ensures Issued(n.client, x) && Accounted(n, x) {
        assert Accounted(s, x);
      }
    }
  }

  lemma DeliverKeeps(s: State, t: Ticket)
    requires Wired(s)
    ensures Wired(Deliver(s, t))
  {
    var n := Deliver(s, t);
    if n != s {
      assert Transit(s, t, s.wire[t]);
      forall x | x in n.wire ensures Transit(n, x, n.wire[x]) {
        if x != t { assert Transit(s, x, s.wire[x]); }
      }
      forall x | x in n.server ensures Issued(n.client, x) && Accounted(n, x) {
        assert Accounted(s, x);
      }
    }
  }

  lemma DropKeeps(s: State)
    requires Wired(s)
    ensures Wired(Drop(s))
  {
    var n := Drop(s);
    forall x | x in n.wire ensures Transit(n, x, n.wire[x]) {
      assert Transit(s, x, s.wire[x]);
    }
  }

  lemma ConnectKeeps(s: State)
    requires Wired(s)
    ensures Wired(Connect(s))
  {
    var n := Connect(s);
    forall x | x in n.wire ensures Transit(n, x, n.wire[x]) {
      assert Transit(s, x, s.wire[x]);
    }
  }

  lemma TimeOutKeeps(s: State, t: Ticket)
    requires Wired(s)
    ensures Wired(TimeOut(s, t))
  {
    var n := TimeOut(s, t);
    forall x | x in n.wire ensures Transit(n, x, n.wire[x]) {
      assert Transit(s, x, s.wire[x]);
    }
    forall x | x in n.server ensures Issued(n.client, x) && Accounted(n, x) {
      assert Accounted(s, x);
    }
  }

  // ----- steps that change the client -----

  /** A client step that issues nothing new and makes no older ticket current. */
  ghost predicate Evolves(c: Client, d: Client) {
    && (forall t | Issued(c, t) :: Issued(d, t))
    && (forall t | Issued(c, t) && Current(d, t) :: Current(c, t))
  }

  lemma EvolveKeeps(s: State, d: Client)
    requires Wired(s) && Evolves(s.client, d)
    ensures Wired(s.(client := d))
  {
    var n := s.(client := d);
    forall x | x in n.wire ensures Transit(n, x, n.wire[x]) {
      assert Transit(s, x, s.wire[x]);
    }
    forall x | x in n.server ensures Issued(n.client, x) && Accounted(n, x) {
      assert Accounted(s, x);
    }
  }

  /** Dropping an adopted subscription and handing it back. */
  lemma HandBackKeeps(s: State, t: Ticket)
    requires Wired(s) && t in s.handlers && Issued(s.client, t)
    ensures Wired(SendUnsub(s.(handlers := s.handlers - {t}), t))
  {
    var n := SendUnsub(s.(handlers := s.handlers - {t}), t);
    assert t in s.wire ==> Transit(s, t, s.wire[t]);
    forall x | x in n.wire ensures Transit(n, x, n.wire[x]) {
      if x != t { assert Transit(s, x, s.wire[x]); }
    }
    forall x | x in n.server ensures Issued(n.client, x) && Accounted(n, x) {
      assert Accounted(s, x);
    }
    forall x | x in n.orphans ensures x in n.server && x !in n.handlers {
      assert x != t;
    }
  }

  /** New requests with tickets never used before. */
  lemma RequestsKeep(s: State, n: State, tickets: set<Ticket>)
    requires Wired(s) && !s.phase.Offline?
    requires n == s.(pending := n.pending, wire := n.wire)
    requires forall x :: x in n.wire <==> x in s.wire || x in tickets
    requires forall x | x in n.wire :: n.wire[x] == if x in tickets then Request else s.wire[x]
    requires forall t | t in tickets ::
               Issued(s.client, t) && t !in s.wire && t !in s.server && t !in s.handlers && t !in s.orphans
    ensures Wired(n)
  {
    forall x | x in n.wire ensures Transit(n, x, n.wire[x]) {
      if x !in tickets { assert Transit(s, x, s.wire[x]); }
    }
    forall x | x in n.server ensures Issued(n.client, x) && Accounted(n, x) {
      assert Accounted(s, x);
    }
  }

  /** A ticket that was not issued appears nowhere. */
  lemma UnissuedUnused(s: State, t: Ticket)
    requires Inv(s) && !Issued(s.client, t)
    ensures t !in s.wire && t !in s.server && t !in s.handlers && t !in s.orphans
  {
    forall x | x in s.wire ensures Issued(s.client, x) { assert Transit(s, x, s.wire[x]); }
  }

  /** Adoption depends on which records are live and on their ids and generations. */
  lemma AdoptedSame(c: Client, d: Client, handlers: map<Ticket, nat>)
    requires Adopted(c, handlers)
    requires forall q: nat :: Live(c, q) <==> Live(d, q)
    requires forall q: nat | Live(c, q) && Live(d, q) :: d.records[q].subId == c.records[q].subId && d.records[q].generation == c.records[q].generation
    ensures Adopted(d, handlers)
  {
  }

  lemma BumpCounts(c: Client, r: nat)
    requires Counted(c) && Live(c, r)
    ensures Counted(Bump(c, r)) && Evolves(c, Bump(c, r))
    ensures forall q: nat :: Live(Bump(c, r), q) <==> Live(c, q)
  {
    assert forall q: nat :: Live(Bump(c, r), q) <==> Live(c, q);
  }

  lemma BumpKeeps(s: State, r: nat)
    requires Inv(s) && Live(s.client, r) && s.client.records[r].subId.None?
    ensures Inv(s.(client := Bump(s.client, r)))
  {
    BumpCounts(s.client, r);
    EvolveKeeps(s, Bump(s.client, r));
  }

  /** A new request for a record that has adopted nothing. */
  lemma OpenKeeps(s: State, r: nat)
    requires Inv(s) && Live(s.client, r) && s.client.records[r].subId.None?
    ensures Inv(Open(s, r))
  {
    var m := s.(client := Bump(s.client, r));
    var t := Ticket(r, s.client.records[r].generation + 1);
    BumpKeeps(s, r);
    UnissuedUnused(s, t);
    if !s.phase.Offline? { RequestsKeep(m, Open(s, r), {t}); }
  }

  lemma OpenedOne(hs: seq<Handle>, r: nat, q: nat)
    ensures |OpenOf(hs + [Handle(r, true)], q)| == |OpenOf(hs, q)| + (if q == r then 1 else 0)
  {
    var more := hs + [Handle(r, true)];
    if q == r {
      assert OpenOf(more, q) == OpenOf(hs, q) + {|hs|};
    } else {
      assert OpenOf(more, q) == OpenOf(hs, q);
    }
  }

  lemma ClosedOne(hs: seq<Handle>, h: nat, q: nat)
    requires h < |hs| && hs[h].open
    ensures |OpenOf(hs[h := hs[h].(open := false)], q)| == |OpenOf(hs, q)| - (if q == hs[h].record then 1 else 0)
  {
    var fewer := hs[h := hs[h].(open := false)];
    if q == hs[h].record {
      assert OpenOf(hs, q) == OpenOf(fewer, q) + {h};
    } else {
      assert OpenOf(fewer, q) == OpenOf(hs, q);
    }
  }

  lemma JoinCounts(c: Client, r: nat)
    requires Counted(c) && Live(c, r)
    ensures Counted(Joined(c, r)) && Evolves(c, Joined(c, r))
    ensures forall q: nat :: Live(Joined(c, r), q) <==> Live(c, q)
  {
    var d := Joined(c, r);
    assert forall q: nat :: Live(d, q) <==> Live(c, q);
    forall q: nat | Live(d, q) ensures d.records[q].refCount == |OpenOf(d.handles, q)| && d.records[q].refCount > 0 {
      OpenedOne(c.handles, r, q);
    }
  }

  lemma JoinKeeps(s: State, r: nat)
    requires Inv(s) && Live(s.client, r)
    ensures Inv(s.(client := Joined(s.client, r)))
  {
    JoinCounts(s.client, r);
    AdoptedSame(s.client, Joined(s.client, r), s.handlers);
    EvolveKeeps(s, Joined(s.client, r));
  }

  lemma CreateLive(c: Client, hash: string, q: nat)
    requires Counted(c) && hash !in c.table
    ensures Live(Created(c, hash), q) <==> q == |c.records| || Live(c, q)
    ensures q < |c.records| ==> Created(c, hash).records[q] == c.records[q]
  {
  }

  lemma CreateCounts(c: Client, hash: string)
    requires Counted(c) && hash !in c.table
    ensures Counted(Created(c, hash))
  {
    var d, r := Created(c, hash), |c.records|;
    forall q: nat ensures q in d.hooks <==> Live(d, q) { CreateLive(c, hash, q); }
    forall q: nat | Live(d, q) ensures d.records[q].refCount == |OpenOf(d.handles, q)| && d.records[q].refCount > 0 {
      CreateLive(c, hash, q);
      OpenedOne(c.handles, r, q);
      if q == r { assert OpenOf(c.handles, r) == {}; }
    }
  }

  lemma CreateKeeps(s: State, hash: string)
    requires Inv(s) && hash !in s.client.table
    ensures Inv(s.(client := Created(s.client, hash)))
  {
    var c, d := s.client, Created(s.client, hash);
    CreateCounts(c, hash);
    forall q: nat ensures Live(d, q) <==> q == |c.records| || Live(c, q) { CreateLive(c, hash, q); }
    assert Evolves(c, d);
    EvolveKeeps(s, d);
  }

  lemma SubscribeKeeps(s: State, hash: string)
    requires Inv(s)
    ensures Inv(Subscribe(s, hash))
  {
    if hash in s.client.table {
      JoinKeeps(s, s.client.table[hash]);
    } else {
      CreateKeeps(s, hash);
      OpenKeeps(s.(client := Created(s.client, hash)), |s.client.records|);
    }
  }

  lemma CloseLive(c: Client, h: nat, q: nat)
    requires h < |c.handles|
    ensures Live(Closed(c, h), q) <==> Live(c, q)
  {
  }

  lemma ReleaseLive(c: Client, r: nat, q: nat)
    requires Live(c, r)
    ensures Live(Released(c, r), q) <==> Live(c, q) && (q != r || c.records[r].refCount > 1)
    ensures q < |c.records| && q != r ==> Released(c, r).records[q] == c.records[q]
    ensures Released(c, r).records[r] == c.records[r].(refCount := c.records[r].refCount - 1)
  {
  }

  /** Closing a handle and counting it off keeps the counts exact. */
  lemma ReleaseCounts(c: Client, h: nat)
    requires Counted(c) && h < |c.handles| && c.handles[h].open
    ensures var r, closed := c.handles[h].record, Closed(c, h);
            Counted(if Live(closed, r) then Released(closed, r) else closed)
  {
    var r, closed := c.handles[h].record, Closed(c, h);
    var live := Live(closed, r);
    var d := if live then Released(closed, r) else closed;
    forall q: nat ensures q in d.hooks <==> Live(d, q) {
      CloseLive(c, h, q);
      if live { ReleaseLive(closed, r, q); }
    }
    forall q: nat | Live(d, q) ensures d.records[q].refCount == |OpenOf(d.handles, q)| && d.records[q].refCount > 0 {
      CloseLive(c, h, q);
      ClosedOne(c.handles, h, q);
      if live { ReleaseLive(closed, r, q); }
    }
  }

  lemma ReleaseEvolves(c: Client, h: nat)
    requires h < |c.handles|
    ensures var r, closed := c.handles[h].record, Closed(c, h);
            Evolves(c, if Live(closed, r) then Released(closed, r) else closed)
  {
    var r, closed := c.handles[h].record, Closed(c, h);
    var live := Live(closed, r);
    var d := if live then Released(closed, r) else closed;
    forall t | Issued(c, t) && Current(d, t) ensures Current(c, t) {
      CloseLive(c, h, t.record);
      if live { ReleaseLive(closed, r, t.record); }
    }
  }

  lemma UnsubscribeKeeps(s: State, h: nat)
    requires Inv(s)
    ensures Inv(Unsubscribe(s, h))
  {
    var c := s.client;
    if h < |c.handles| && c.handles[h].open {
      var r, closed := c.handles[h].record, Closed(c, h);
      ReleaseCounts(c, h);
      ReleaseEvolves(c, h);
      forall q: nat ensures Live(closed, q) <==> Live(c, q) { CloseLive(c, h, q); }
      if Live(closed, r) {
        LastOut(s, closed, r);
      } else {
        AdoptedSame(c, closed, s.handlers);
        EvolveKeeps(s, closed);
      }
    }
  }

  /** The wire side of a release: the last handle hands the subscription back. */
  lemma LastOut(s: State, closed: Client, r: nat)
    requires Wired(s) && Adopted(s.client, s.handlers) && Live(closed, r)
    requires closed.records == s.client.records && closed.table == s.client.table
    requires Evolves(s.client, Released(closed, r))
    ensures var a, next := closed.records[r], s.(client := Released(closed, r));
            var n := if a.refCount > 1 || a.subId.None? then next
                     else SendUnsub(next.(handlers := s.handlers - {a.subId.value}), a.subId.value);
            Wired(n) && Adopted(n.client, n.handlers)
  {
    var a, d := closed.records[r], Released(closed, r);
    EvolveKeeps(s, d);
    assert forall q: nat :: Live(closed, q) <==> Live(s.client, q);
    forall q: nat ensures Live(d, q) <==> Live(closed, q) && (q != r || a.refCount > 1) { ReleaseLive(closed, r, q); }
    assert d.records[r].subId == a.subId && d.records[r].generation == a.generation;
    if a.refCount > 1 {
      AdoptedSame(s.client, d, s.handlers);
    } else if a.subId.Some? {
      HandBackKeeps(s.(client := d), a.subId.value);
    }
  }

  lemma ContinueKeeps(s: State, t: Ticket)
    requires Inv(s)
    ensures Inv(Continue(s, t))
  {
    if t in s.wire && s.wire[t].Continuation? {
      var n := Continue(s, t);
      assert Transit(s, t, s.wire[t]);
      if s.wire[t].ok && Current(s.client, t) {
        AdoptKeeps(s, t);
      } else {
        forall x | x in n.wire ensures Transit(n, x, n.wire[x]) {
          if x != t { assert Transit(s, x, s.wire[x]); }
        }
        forall x | x in n.server ensures Issued(n.client, x) && Accounted(n, x) {
          assert Accounted(s, x);
        }
      }
    }
  }

  lemma AdoptCounts(c: Client, handlers: map<Ticket, nat>, t: Ticket)
    requires Counted(c) && Adopted(c, handlers) && Current(c, t) && t !in handlers
    ensures var d := c.(records := c.records[t.record := c.records[t.record].(subId := Some(t))]);
            Counted(d) && Evolves(c, d) && Adopted(d, handlers[t := t.record])
  {
    var r := t.record;
    var d := c.(records := c.records[r := c.records[r].(subId := Some(t))]);
    assert forall q: nat :: Live(d, q) <==> Live(c, q);
    assert c.records[r].subId.None?;
  }

  lemma AdoptKeeps(s: State, t: Ticket)
    requires Inv(s) && t in s.wire && s.wire[t] == Continuation(true) && Current(s.client, t)
    ensures Inv(Continue(s, t))
  {
    var n := Continue(s, t);
    assert Transit(s, t, s.wire[t]);
    AdoptCounts(s.client, s.handlers, t);
    EvolveKeeps(s, n.client);
    var m := s.(client := n.client);
    forall x | x in n.wire ensures Transit(n, x, n.wire[x]) {
      assert Transit(m, x, m.wire[x]);
    }
    forall x | x in n.server ensures Issued(n.client, x) && Accounted(n, x) {
      assert Accounted(m, x);
    }
  }

  // ----- the connection -----

  lemma ReopenCounts(c: Client)
    requires Counted(c)
    ensures Counted(Reopened(c)) && Adopted(Reopened(c), map[])
    ensures forall t | Issued(c, t) :: Issued(Reopened(c), t) && !Current(Reopened(c), t)
  {
    var d := Reopened(c);
    assert forall q: nat :: Live(d, q) <==> Live(c, q);
  }

  /** Dropping every adopted id: the connection is new, and nothing older is current any more. */
  lemma ReopenKeeps(s: State)
    requires Inv(s) && s.phase.Authenticating? && s.hasConnected
    ensures Inv(s.(client := Reopened(s.client), phase := Online, handlers := map[]))
    ensures s.handlers - HookSubIds(s.client) == map[]
  {
    var c := s.client;
    var m := s.(client := Reopened(c), phase := Online, handlers := map[]);
    ReopenCounts(c);
    forall t | t in s.handlers ensures t in HookSubIds(c) { assert t.record in c.hooks; }
    forall x | x in m.wire ensures Transit(m, x, m.wire[x]) {
      assert Transit(s, x, s.wire[x]);
    }
    forall x | x in m.server ensures Issued(m.client, x) && Accounted(m, x) {
      assert Accounted(s, x);
    }
  }

  lemma AuthenticatedKeeps(s: State)
    requires Inv(s)
    ensures Inv(Authenticated(s))
  {
    var n := Authenticated(s);
    if s.phase.Authenticating? && s.hasConnected {
      var tickets := HookTickets(s.client);
      var m := s.(client := Reopened(s.client), phase := Online, handlers := map[]);
      ReopenKeeps(s);
      forall t | t in tickets
        ensures Issued(m.client, t) && t !in m.wire && t !in m.server && t !in m.handlers && t !in m.orphans
      {
        UnissuedUnused(s, t);
      }
      RequestsKeep(m, n, tickets);
    } else if s.phase.Authenticating? {
      forall x | x in n.wire ensures Transit(n, x, n.wire[x]) {
        assert Transit(s, x, s.wire[x]);
      }
      forall x | x in n.server ensures Issued(n.client, x) && Accounted(n, x) {
        assert Accounted(s, x);
      }
    }
  }

  lemma DisconnectKeeps(s: State)
    requires Inv(s)
    ensures Inv(Disconnect(s))
  {
    var n := Disconnect(s);
    forall x | x in n.wire ensures Transit(n, x, n.wire[x]) {
      assert Transit(s, x, s.wire[x]);
    }
  }

  lemma NextKeeps(s: State, e: Event)
    requires Inv(s)
    ensures Inv(Next(s, e))
  {
    match e {
      case DoSubscribe(hash) => SubscribeKeeps(s, hash);
      case DoUnsubscribe(h) => UnsubscribeKeeps(s, h);
      case DoContinue(t) => ContinueKeeps(s, t);
      case DoConnect => ConnectKeeps(s);
      case DoAuthenticated => AuthenticatedKeeps(s);
      case DoDrop => DropKeeps(s);
      case DoDisconnect => DisconnectKeeps(s);
      case DoServe(t, accept) => ServeKeeps(s, t, accept);
      case DoServeUnsub(t) => ServeUnsubKeeps(s, t);
      case DoDeliver(t) => DeliverKeeps(s, t);
      case DoTimeOut(t) => TimeOutKeeps(s, t);
    }
  }

  lemma {:induction false} RunKeeps(s: State, events: seq<Event>)
    requires Inv(s)
    ensures Inv(Run(s, events))
    decreases |events|
  {
    if events != [] {
      NextKeeps(s, events[0]);
      RunKeeps(Next(s, events[0]), events[1..]);
    }
  }
}
