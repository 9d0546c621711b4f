/**
 The subscription layer as the client runs it, updating its records and tables in place.
 Each operation is proved to be the protocol step of the same name.
 */
module SubscriptionClient {
  import opened Options
  import opened SubscriptionInvariant
  import opened Subscriptions

  class LiveQueries {
    var phase: Phase
    var hasConnected: bool
    var records: seq<Active>
    var table: map<string, nat>
    var hooks: set<nat>
    var handles: seq<Handle>
    var handlers: map<Ticket, nat>
    var pending: set<Ticket>
    var wire: map<Ticket, Message>
    ghost var server: set<Ticket>
    ghost var orphans: set<Ticket>

    ghost function Records(): Client
      reads this
    {
      Client(records, table, hooks, handles)
    }

    ghost function Snapshot(): State
      reads this
    {
      State(phase, hasConnected, Records(), handlers, pending, wire, server, orphans)
    }

    constructor ()
      ensures Snapshot() == INITIAL
    {
      phase, hasConnected := Offline, false;
      records, table, hooks, handles := [], map[], {}, [];
      handlers, pending, wire, server, orphans := map[], {}, map[], {}, {};
    }

    method OpenSubscription(r: nat)
      requires r < |records|
      modifies this`records, this`pending, this`wire
      ensures Snapshot() == Open(old(Snapshot()), r)
    {
      records := records[r := records[r].(generation := records[r].generation + 1)];
      if !phase.Offline? {
        var t := Ticket(r, records[r].generation);
        pending := pending + {t};
        wire := wire[t := Request];
      }
    }

    method GiveBack(t: Ticket)
      modifies this`wire
      ensures Snapshot() == SendUnsub(old(Snapshot()), t)
    {
      if !phase.Offline? { wire := wire[t := Unsub]; }
    }

    /** Counts a caller in, on the record of the query or on a new one; returns the caller's handle. */
    method Join(hash: string) returns (h: nat, isNew: bool, r: nat)
      requires Counted(Records())
      modifies this`records, this`table, this`hooks, this`handles
      ensures h == old(|handles|) && isNew == (hash !in old(table)) && r < |records|
      ensures r == if isNew then old(|records|) else old(table)[hash]
      ensures Records() == if isNew then Created(old(Records()), hash) else Joined(old(Records()), r)
    {
      h := |handles|;
      isNew := hash !in table;
      if isNew {
        r := |records|;
        records := records + [Active(hash, 1, None, 0)];
        table := table[hash := r];
        hooks := hooks + {r};
      } else {
        r := table[hash];
        records := records[r := records[r].(refCount := records[r].refCount + 1)];
      }
      handles := handles + [Handle(r, true)];
    }

    method SubscribeQuery(hash: string) returns (h: nat)
      requires Counted(Records())
      modifies this`records, this`table, this`hooks, this`handles, this`pending, this`wire
      ensures Snapshot() == Subscribe(old(Snapshot()), hash)
      ensures h == old(|handles|)
    {
      var isNew, r;
      h, isNew, r := Join(hash);
      if isNew { OpenSubscription(r); }
    }

    /** Counts a caller out; the last one takes the record out of the table. */
    method Leave(r: nat)
      requires Live(Records(), r)
      modifies this`records, this`table, this`hooks
      ensures Records() == Released(old(Records()), r)
    {
      records := records[r := records[r].(refCount := records[r].refCount - 1)];
      if records[r].refCount <= 0 {
        table := table - {records[r].hash};
        hooks := hooks - {r};
      }
    }

    method UnsubscribeHandle(h: nat)
      requires h < |handles|
      modifies this`records, this`table, this`hooks, this`handles, this`handlers, this`wire
      ensures Snapshot() == Unsubscribe(old(Snapshot()), h)
    {
      if !handles[h].open { return; }
      var r := handles[h].record;
      handles := handles[h := handles[h].(open := false)];
      if r >= |records| || records[r].hash !in table || table[records[r].hash] != r { return; }
      var a := records[r];
      Leave(r);
      if a.refCount <= 1 && a.subId.Some? {
        handlers := handlers - {a.subId.value};
        GiveBack(a.subId.value);
      }
    }

    /** What runs when the awaited reply to a request is in. */
    method Resume(t: Ticket)
      requires t in wire && wire[t].Continuation?
      modifies this`records, this`handlers, this`wire
      ensures Snapshot() == Continue(old(Snapshot()), t)
    {
      var ok, r := wire[t].ok, t.record;
      wire := wire - {t};
      if !ok { return; }
      if r < |records| && records[r].hash in table && table[records[r].hash] == r && records[r].generation == t.generation {
        records := records[r := records[r].(subId := Some(t))];
        handlers := handlers[t := r];
      } else {
        GiveBack(t);
      }
    }

    /** The reconnect hook of one record: the server has forgotten its subscription, ask for a new one. */
    method Reopen(r: nat)
      requires phase.Online? && r < |records|
      modifies this`records, this`handlers, this`pending, this`wire
      ensures Snapshot() == ReopenOne(old(Snapshot()), r)
    {
      if records[r].subId.Some? { handlers := handlers - {records[r].subId.value}; }
      records := records[r := records[r].(subId := None)];
      OpenSubscription(r);
    }

    /** The reconnect hooks, one per live record, in any order. */
    method ReopenAll()
      requires phase.Online? && forall r | r in hooks :: r < |records|
      modifies this`records, this`handlers, this`pending, this`wire
      ensures Snapshot() == Resubscribed(old(Snapshot()))
    {
      ghost var before, visited: seq<nat> := Snapshot(), [];
      var todo := hooks;
      while todo != {}
        invariant Snapshot() == ReopenEach(before, visited)
        invariant hooks == before.client.hooks && |records| == |before.client.records| && phase.Online?
        invariant forall r :: r in todo <==> r in hooks && r !in visited
        invariant Visits(before, visited) && forall r | r in visited :: r in hooks
        decreases |todo|
      {
        var r :| r in todo;
        EachThenOne(before, visited, r);
        Reopen(r);
        visited := visited + [r];
        todo := todo - {r};
      }
      ReopenEachIsAll(before, visited);
    }

    method ConnectionAuthenticated()
      requires phase.Authenticating? && Counted(Records())
      modifies this`phase, this`hasConnected, this`records, this`handlers, this`pending, this`wire
      ensures Snapshot() == Authenticated(old(Snapshot()))
    {
      phase := Online;
      if !hasConnected {
        hasConnected := true;
      } else {
        ReopenAll();
      }
    }

    /** Retires every subscription of the session: no record, hook or push handler is left. */
    method ResetSubscriptions()
      requires Counted(Records()) && Adopted(Records(), handlers)
      modifies this`table, this`hooks, this`handlers
      ensures table == map[] && hooks == {} && handlers == map[]
    {
      ghost var c := Records();
      var todo := table.Keys;
      AllLeft(c, handlers, todo);
      while todo != {}
        invariant todo <= table.Keys && HooksLeft(c, hooks, todo) && HandlersLeft(c, handlers, todo)
        decreases |todo|
        modifies this`hooks, this`handlers
      {
        var hash :| hash in todo;
        var r := table[hash];
        OneRetired(c, hooks, handlers, todo, hash);
        hooks := hooks - {r};
        if records[r].subId.Some? { handlers := handlers - {records[r].subId.value}; }
        todo := todo - {hash};
      }
      table := map[];
    }
  }

  ghost predicate InRange(c: Client) {
    forall hash | hash in c.table :: c.table[hash] < |c.records|
  }

  lemma AllLeft(c: Client, handlers: map<Ticket, nat>, todo: set<string>)
    requires Counted(c) && Adopted(c, handlers) && todo == c.table.Keys
    ensures InRange(c) && HooksLeft(c, c.hooks, todo) && HandlersLeft(c, handlers, todo)
  {
    forall r | r in c.hooks ensures Live(c, r) {
    }
    forall t | t in handlers ensures Live(c, t.record) && c.records[t.record].subId == Some(t) {
      assert Current(c, t);
    }
  }

  ghost predicate HooksLeft(c: Client, hooks: set<nat>, todo: set<string>) {
    forall r | r in hooks :: Live(c, r) && c.records[r].hash in todo
  }

  ghost predicate HandlersLeft(c: Client, handlers: map<Ticket, nat>, todo: set<string>) {
    forall t | t in handlers :: Live(c, t.record) && c.records[t.record].hash in todo && c.records[t.record].subId == Some(t)
  }

  lemma OneRetired(c: Client, hooks: set<nat>, handlers: map<Ticket, nat>, todo: set<string>, hash: string)
    requires hash in c.table && c.table[hash] < |c.records| && HooksLeft(c, hooks, todo) && HandlersLeft(c, handlers, todo)
    ensures var r := c.table[hash];
            var subId := c.records[r].subId;
            && HooksLeft(c, hooks - {r}, todo - {hash})
            && HandlersLeft(c, if subId.Some? then handlers - {subId.value} else handlers, todo - {hash})
  {
  }

  // ----- the hooks one by one are the reconnect step -----

  function ReopenOne(s: State, r: nat): State {
    if r >= |s.client.records| then s
    else
      var a := s.client.records[r];
      var t := Ticket(r, a.generation + 1);
      s.(client := s.client.(records := s.client.records[r := a.(subId := None, generation := t.generation)]),
         handlers := s.handlers - (if a.subId.Some? then {a.subId.value} else {}),
         pending := s.pending + {t}, wire := s.wire[t := Request])
  }

  function ReopenEach(s: State, order: seq<nat>): State {
    if order == [] then s else ReopenOne(ReopenEach(s, order[..|order| - 1]), order[|order| - 1])
  }

  function Resubscribed(s: State): State {
    s.(client := Reopened(s.client), handlers := s.handlers - HookSubIds(s.client),
       pending := s.pending + HookTickets(s.client), wire := s.wire + Requests(HookTickets(s.client)))
  }

  ghost predicate Distinct(order: seq<nat>) {
    forall i, j | 0 <= i < j < |order| :: order[i] != order[j]
  }

  lemma EachThenOne(s: State, order: seq<nat>, r: nat)
    ensures ReopenEach(s, order + [r]) == ReopenOne(ReopenEach(s, order), r)
  {
    assert (order + [r])[..|order|] == order;
  }

  /** What the hooks visited so far have done, record by record and ticket by ticket. */
  lemma {:induction false} EachRecord(s: State, order: seq<nat>, i: nat)
    requires Distinct(order) && i < |s.client.records|
    ensures var n, a := ReopenEach(s, order), s.client.records[i];
            && n == s.(client := s.client.(records := n.client.records), handlers := n.handlers, pending := n.pending, wire := n.wire)
            && |n.client.records| == |s.client.records|
            && n.client.records[i] == if i in order then a.(subId := None, generation := a.generation + 1) else a
  {
    if order != [] {
      var last := |order| - 1;
      EachRecord(s, order[..last], i);
      assert i in order <==> i in order[..last] || i == order[last];
    }
  }

  /** The tickets and the subscription ids that reopening some records concerns. */
  function NewTickets(c: Client, order: seq<nat>): set<Ticket> {
    set i | i in order && i < |c.records| :: Ticket(i, c.records[i].generation + 1)
  }

  function OldIds(c: Client, order: seq<nat>): set<Ticket> {
    set i | i in order && i < |c.records| && c.records[i].subId.Some? :: c.records[i].subId.value
  }

  lemma OneMore(c: Client, order: seq<nat>)
    requires order != [] && order[|order| - 1] < |c.records|
    ensures var r, fewer := order[|order| - 1], order[..|order| - 1];
            && NewTickets(c, order) == NewTickets(c, fewer) + {Ticket(r, c.records[r].generation + 1)}
            && OldIds(c, order) == OldIds(c, fewer) + (if c.records[r].subId.Some? then {c.records[r].subId.value} else {})
  {
    assert forall i :: i in order <==> i in order[..|order| - 1] || i == order[|order| - 1];
  }

  ghost predicate Visits(s: State, order: seq<nat>) {
    Distinct(order) && forall r | r in order :: r < |s.client.records|
  }

  /** The record the last hook finds is as it was before any hook ran. */
  lemma LastUntouched(s: State, order: seq<nat>)
    requires Visits(s, order) && order != []
    ensures var fewer, r := order[..|order| - 1], order[|order| - 1];
            Visits(s, fewer) && r < |s.client.records| && |ReopenEach(s, fewer).client.records| == |s.client.records| &&
            ReopenEach(s, fewer).client.records[r] == s.client.records[r]
  {
    var fewer, r := order[..|order| - 1], order[|order| - 1];
    assert r in order && r !in fewer && forall x | x in fewer :: x in order;
    EachRecord(s, fewer, r);
  }

  lemma {:induction false} EachHandlers(s: State, order: seq<nat>)
    requires Visits(s, order)
    ensures ReopenEach(s, order).handlers == s.handlers - OldIds(s.client, order)
  {
    if order != [] {
      var fewer, r := order[..|order| - 1], order[|order| - 1];
      LastUntouched(s, order);
      EachHandlers(s, fewer);
      OneMore(s.client, order);
      var ids := if s.client.records[r].subId.Some? then {s.client.records[r].subId.value} else {};
      assert (s.handlers - OldIds(s.client, fewer)) - ids == s.handlers - (OldIds(s.client, fewer) + ids);
    }
  }

  lemma {:induction false} EachPending(s: State, order: seq<nat>)
    requires Visits(s, order)
    ensures ReopenEach(s, order).pending == s.pending + NewTickets(s.client, order)
  {
    if order != [] {
      LastUntouched(s, order);
      EachPending(s, order[..|order| - 1]);
      OneMore(s.client, order);
    }
  }

  function Requests(tickets: set<Ticket>): map<Ticket, Message> {
    map t | t in tickets :: Request
  }

  lemma OneRequest(base: map<Ticket, Message>, less: map<Ticket, Message>, more: map<Ticket, Message>,
                   fewer: set<Ticket>, tickets: set<Ticket>, t: Ticket)
    requires less == base + Requests(fewer) && more == less[t := Request] && tickets == fewer + {t}
    ensures more == base + Requests(tickets)
  {
  }

  lemma LastWire(s: State, order: seq<nat>)
    requires Visits(s, order) && order != []
    ensures var fewer, r := order[..|order| - 1], order[|order| - 1];
            Visits(s, fewer) && r < |s.client.records| &&
            ReopenEach(s, order).wire == ReopenEach(s, fewer).wire[Ticket(r, s.client.records[r].generation + 1) := Request]
  {
    LastUntouched(s, order);
  }

  lemma {:induction false} EachWire(s: State, order: seq<nat>, wire: map<Ticket, Message>, tickets: set<Ticket>)
    requires Visits(s, order) && wire == ReopenEach(s, order).wire && tickets == NewTickets(s.client, order)
    ensures wire == s.wire + Requests(tickets)
    decreases |order|
  {
    if order != [] {
      var fewer, r := order[..|order| - 1], order[|order| - 1];
      LastWire(s, order);
      OneMore(s.client, order);
      var less, rest := ReopenEach(s, fewer).wire, NewTickets(s.client, fewer);
      EachWire(s, fewer, less, rest);
      OneRequest(s.wire, less, wire, rest, tickets, Ticket(r, s.client.records[r].generation + 1));
    }
  }

  lemma ReopenEachIsAll(s: State, order: seq<nat>)
    requires Visits(s, order) && forall r :: r in order <==> r in s.client.hooks
    ensures ReopenEach(s, order) == Resubscribed(s)
  {
    EachHandlers(s, order);
    EachPending(s, order);
    EachWire(s, order, ReopenEach(s, order).wire, NewTickets(s.client, order));
    assert NewTickets(s.client, order) == HookTickets(s.client);
    assert OldIds(s.client, order) == HookSubIds(s.client);
    SameRecords(s, order);
  }

  lemma SameRecords(s: State, order: seq<nat>)
    requires Distinct(order) && forall r :: r in order <==> r in s.client.hooks
    ensures var n := ReopenEach(s, order);
            n == s.(client := Reopened(s.client), handlers := n.handlers, pending := n.pending, wire := n.wire)
  {
    var n := ReopenEach(s, order);
    SameFrame(s, order);
    forall i | 0 <= i < |s.client.records| ensures n.client.records[i] == Reopened(s.client).records[i] {
      EachRecord(s, order, i);
    }
    assert n.client.records == Reopened(s.client).records;
  }

  lemma {:induction false} SameFrame(s: State, order: seq<nat>)
    ensures var n := ReopenEach(s, order);
            && n == s.(client := s.client.(records := n.client.records), handlers := n.handlers, pending := n.pending, wire := n.wire)
            && |n.client.records| == |s.client.records|
  {
    if order != [] { SameFrame(s, order[..|order| - 1]); }
  }
}
