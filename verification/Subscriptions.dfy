/**
 Live queries over the WebSocket: deduplicated subscriptions with reference counts,
 requests in flight, reconnects that supersede older requests, and session ends.

 The protocol is a state machine over the client, the wire and the server's registrations
 of the current connection. Each `sub` request is sent once, for one record at one
 generation, and the server mints one fresh subscription id for it, so a `Ticket` names the
 request, its reply and its subscription id.
 */
module Subscriptions {
  import opened Options

  datatype Ticket = Ticket(record: nat, generation: nat)

  /** One deduplicated subscription, shared by every handle on the same query hash. */
  datatype Active = Active(hash: string, refCount: int, subId: Option<Ticket>, generation: nat)

  datatype Handle = Handle(record: nat, open: bool)

  /** Every record ever made, the current session's deduplication map, the reconnect hooks, every handle returned. */
  datatype Client = Client(records: seq<Active>, table: map<string, nat>, hooks: set<nat>, handles: seq<Handle>)

  datatype Phase = Offline | Authenticating | Online

  /** Where the message about a ticket is: on the wire, or received with its continuation not yet run. */
  datatype Message = Request | Reply(ok: bool) | Continuation(ok: bool) | Unsub

  datatype State = State(
    phase: Phase,
    hasConnected: bool,
    client: Client,
    handlers: map<Ticket, nat>,   // push handlers by subscription id
    pending: set<Ticket>,         // requests waiting for a reply
    wire: map<Ticket, Message>,
    server: set<Ticket>,          // registrations of the current connection
    orphans: set<Ticket>)         // registrations whose sub-ok found no waiting request

  const INITIAL := State(Offline, false, Client([], map[], {}, []), map[], {}, map[], {}, {})

  predicate Live(c: Client, r: nat) {
    r < |c.records| && c.records[r].hash in c.table && c.table[c.records[r].hash] == r
  }

  /** The ticket of the newest request of a live record. */
  predicate Current(c: Client, t: Ticket) {
    Live(c, t.record) && c.records[t.record].generation == t.generation
  }

  // ----- the client's operations -----

  function Bump(c: Client, r: nat): Client
    requires r < |c.records|
  {
    c.(records := c.records[r := c.records[r].(generation := c.records[r].generation + 1)])
  }

  /** A new generation of a record; with a closed socket the request is rejected on the spot. */
  function Open(s: State, r: nat): State
    requires r < |s.client.records|
  {
    var t := Ticket(r, s.client.records[r].generation + 1);
    var next := s.(client := Bump(s.client, r));
    if s.phase.Offline? then next else next.(pending := s.pending + {t}, wire := s.wire[t := Request])
  }

  function Joined(c: Client, r: nat): Client
    requires r < |c.records|
  {
    c.(records := c.records[r := c.records[r].(refCount := c.records[r].refCount + 1)], handles := c.handles + [Handle(r, true)])
  }

  function Created(c: Client, hash: string): Client {
    var r := |c.records|;
    Client(c.records + [Active(hash, 1, None, 0)], c.table[hash := r], c.hooks + {r}, c.handles + [Handle(r, true)])
  }

  function Subscribe(s: State, hash: string): State {
    var c := s.client;
    if hash in c.table && c.table[hash] < |c.records| then s.(client := Joined(c, c.table[hash]))
    else Open(s.(client := Created(c, hash)), |c.records|)
  }

  /** An unsub goes out when the socket is open and is dropped otherwise. */
  function SendUnsub(s: State, t: Ticket): State {
    if s.phase.Offline? then s else s.(wire := s.wire[t := Unsub])
  }

  function Closed(c: Client, h: nat): Client
    requires h < |c.handles|
  {
    c.(handles := c.handles[h := c.handles[h].(open := false)])
  }

  function Released(c: Client, r: nat): Client
    requires Live(c, r)
  {
    var a := c.records[r].(refCount := c.records[r].refCount - 1);
    var fewer := c.(records := c.records[r := a]);
    if a.refCount > 0 then fewer else fewer.(table := c.table - {a.hash}, hooks := c.hooks - {r})
  }

  function Unsubscribe(s: State, h: nat): State {
    var c := s.client;
    if h >= |c.handles| || !c.handles[h].open then s
    else
      var r := c.handles[h].record;
      var closed := Closed(c, h);
      if !Live(closed, r) then s.(client := closed)
      else
        var next := s.(client := Released(closed, r));
        if closed.records[r].refCount > 1 then next
        else
          match closed.records[r].subId
          case None => next
          case Some(t) => SendUnsub(next.(handlers := s.handlers - {t}), t)
  }

  /** The code after the awaited reply: adopt the subscription, or give it back. */
  function Continue(s: State, t: Ticket): State {
    if t !in s.wire || !s.wire[t].Continuation? then s
    else
      var rest := s.(wire := s.wire - {t});
      if !s.wire[t].ok then rest
      else if Current(s.client, t) then
        var a := s.client.records[t.record].(subId := Some(t));
        rest.(client := s.client.(records := s.client.records[t.record := a]), handlers := s.handlers[t := t.record])
      else SendUnsub(rest, t)
  }

  // ----- the connection -----

  function Connect(s: State): State {
    if s.phase.Offline? then s.(phase := Authenticating) else s
  }

  function Reopened(c: Client): Client {
    c.(records := seq(|c.records|, i requires 0 <= i < |c.records| =>
         if i in c.hooks then c.records[i].(subId := None, generation := c.records[i].generation + 1) else c.records[i]))
  }

  function HookTickets(c: Client): set<Ticket> {
    set i | 0 <= i < |c.records| && i in c.hooks :: Ticket(i, c.records[i].generation + 1)
  }

  function HookSubIds(c: Client): set<Ticket> {
    set i | 0 <= i < |c.records| && i in c.hooks && c.records[i].subId.Some? :: c.records[i].subId.value
  }

  /** After the first connection, every reconnect drops the adopted ids and re-opens each record. */
  function Authenticated(s: State): State {
    if !s.phase.Authenticating? then s
    else if !s.hasConnected then s.(phase := Online, hasConnected := true)
    else
      var tickets := HookTickets(s.client);
      s.(phase := Online, client := Reopened(s.client), handlers := s.handlers - HookSubIds(s.client),
         pending := s.pending + tickets, wire := s.wire + map t | t in tickets :: Request)
  }

  /** The socket is gone: waiting requests are rejected and the server forgets the connection. */
  function Drop(s: State): State {
    s.(phase := Offline, pending := {}, wire := map t | t in s.wire && s.wire[t].Continuation? :: s.wire[t],
       server := {}, orphans := {})
  }

  /** A deliberate session end retires every subscription of the client. */
  function Disconnect(s: State): State {
    Drop(s.(client := s.client.(table := map[], hooks := {}), handlers := map[]))
  }

  // ----- the wire and the server -----

  function Serve(s: State, t: Ticket, accept: bool): State {
    if t !in s.wire || !s.wire[t].Request? then s
    else s.(wire := s.wire[t := Reply(accept)], server := if accept then s.server + {t} else s.server)
  }

  function ServeUnsub(s: State, t: Ticket): State {
    if t !in s.wire || !s.wire[t].Unsub? then s else s.(wire := s.wire - {t}, server := s.server - {t})
  }

  /** A reply that finds its request resolves it; a reply nobody waits for is ignored. */
  function Deliver(s: State, t: Ticket): State {
    if !s.phase.Online? || t !in s.wire || !s.wire[t].Reply? then s
    else if t in s.pending then s.(pending := s.pending - {t}, wire := s.wire[t := Continuation(s.wire[t].ok)])
    else s.(wire := s.wire - {t}, orphans := if s.wire[t].ok then s.orphans + {t} else s.orphans)
  }

  function TimeOut(s: State, t: Ticket): State {
    s.(pending := s.pending - {t})
  }

  datatype Event =
    | DoSubscribe(hash: string)
    | DoUnsubscribe(handle: nat)
    | DoContinue(t: Ticket)
    | DoConnect
    | DoAuthenticated
    | DoDrop
    | DoDisconnect
    | DoServe(t: Ticket, accept: bool)
    | DoServeUnsub(t: Ticket)
    | DoDeliver(t: Ticket)
    | DoTimeOut(t: Ticket)

  function Next(s: State, e: Event): State {
    match e
    case DoSubscribe(hash) => Subscribe(s, hash)
    case DoUnsubscribe(h) => Unsubscribe(s, h)
    case DoContinue(t) => Continue(s, t)
    case DoConnect => Connect(s)
    case DoAuthenticated => Authenticated(s)
    case DoDrop => Drop(s)
    case DoDisconnect => Disconnect(s)
    case DoServe(t, accept) => Serve(s, t, accept)
    case DoServeUnsub(t) => ServeUnsub(s, t)
    case DoDeliver(t) => Deliver(s, t)
    case DoTimeOut(t) => TimeOut(s, t)
  }

  function Run(s: State, events: seq<Event>): State
    decreases |events|
  {
    if events == [] then s else Run(Next(s, events[0]), events[1..])
  }
}
