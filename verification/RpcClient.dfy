/**
 The shared tables of the JSON-RPC client (crates/pocox-codex/src/client.rs)
 and the transition system of everything that touches them: callers, the
 reader, the keepalive watchdog and every path that closes the connection.
 */
module RpcClient {
  import opened Text

  /** `AtomicU64::fetch_add` wraps here. */
  const U64: nat := 0x1_0000_0000_0000_0000

  /** A request is known by its allocation order; on the wire it carries a key. */
  type Request = nat

  /** The id request number `r` is sent with: the counter starts at 1. */
  function Key(r: Request): string { Decimal((1 + r) % U64) }

  datatype Payload = Value(result: string) | RpcError(message: string)

  datatype Reply = Reply(key: string, payload: Payload)

  /** The oneshot channel of a request. `Refused` stands for the connection
      error sent by a drain and for a sender dropped without a message. */
  datatype Channel = Empty | Delivered(reply: nat) | Refused

  datatype Outcome = Answered(reply: nat) | ConnectionError | TimedOut | Aborted

  datatype RequestId = StringId(s: string) | NumberId(n: int)

  /** The token a server request is answered under, and the key of a reply. */
  function TokenOf(id: RequestId): string {
    match id
    case StringId(s) => s
    case NumberId(n) => if n < 0 then "-" + Decimal(-n) else Decimal(n)
  }

  // ---------- the tables under the pending lock ----------

  datatype Table = Table(pending: map<string, Request>, channels: seq<Channel>)

  predicate Owned(t: Table) {
    forall k :: k in t.pending ==> t.pending[k] < |t.channels|
  }

  /** A sender that goes away unused refuses its receiver. */
  function Refuse(c: Channel): Channel { if c == Empty then Refused else c }

  /** `remove(&key)`, dropping the sender. */
  function DropKey(t: Table, key: string): Table
    requires Owned(t)
  {
    if key !in t.pending then t
    else Table(t.pending - {key}, t.channels[t.pending[key] := Refuse(t.channels[t.pending[key]])])
  }

  /** `insert(key, tx)`: an entry already there loses its sender. */
  function InsertKey(t: Table, key: string, r: Request): Table
    requires Owned(t)
  {
    var dropped := DropKey(t, key);
    Table(dropped.pending[key := r], dropped.channels)
  }

  /** `take_pending`: the entry leaves the map, its sender is in the reader's hand. */
  function Taken(t: Table, key: string): Table { Table(t.pending - {key}, t.channels) }

  /** The send on a taken oneshot, outside the lock. */
  function Sent(t: Table, owner: Request, reply: nat): Table
    requires owner < |t.channels|
  {
    Table(t.pending, t.channels[owner := Delivered(reply)])
  }

  /** `drain()`: every registered request is refused. */
  function DrainAll(t: Table): Table {
    Table(map[], seq(|t.channels|, i requires 0 <= i < |t.channels| =>
      if i in t.pending.Values then Refuse(t.channels[i]) else t.channels[i]))
  }

  // ---------- the transition system ----------

  datatype Closer = Reader | Keepalive | Writer(r: Request) | Sender(n: nat)

  /** Progress through recording a reason, cancelling and draining. */
  datatype Closing = Recorded | Cancelled

  datatype Phase =
    | Allocated             // id drawn
    | Checked               // holds the pending lock, saw the connection open
    | Writing               // registered, frame not written yet
    | Waiting               // frame written
    | Failing               // its write broke; it is closing the connection
    | Finishing(o: Outcome) // result known, registration guard not dropped yet
    | Done(o: Outcome)

  /** A sender the reader has taken out of the map, with the reply it is to send. */
  datatype Hand = Hand(owner: Request, reply: nat)

  datatype State = State(
    closed: bool,
    reason: Option<string>,
    lock: Option<Request>,
    table: Table,
    phases: seq<Phase>,
    closers: map<Closer, Closing>,
    drained: bool,
    reading: bool,
    hand: Option<Hand>,
    replies: seq<Reply>,
    arrivals: seq<RequestId>,
    serverReqs: map<string, nat>,
    answers: seq<nat>)

  const INIT := State(false, None, None, Table(map[], []), [], map[], false, true, None, [], [], map[], [])

  datatype Step =
    | Start
    | Check(r: Request)
    | Insert(r: Request)
    | WriteOk(r: Request)
    | WriteCancelled(r: Request)
    | WriteBroken(r: Request, message: string)
    | BrokenDone(r: Request)
    | Receive(r: Request)
    | Timeout(r: Request)
    | Abort(r: Request)
    | DropGuard(r: Request)
    | Take(reply: Reply)
    | Send
    | ServerRequest(id: RequestId)
    | Respond(token: string)
    | OwnClose(message: string)
    | CloseBegin(c: Closer, cause: Option<string>)
    | Cancel(c: Closer)
    | Drain(c: Closer)

  predicate In(s: State, r: Request, phase: Phase) {
    r < |s.phases| && s.phases[r] == phase
  }

  predicate Ending(s: State, r: Request) {
    r < |s.phases| && s.phases[r].Finishing?
  }

  predicate Enabled(s: State, step: Step) {
    match step
    case Start => true
    case Check(r) => In(s, r, Allocated) && s.lock.None?
    case Insert(r) => In(s, r, Checked) && s.lock == Some(r)
    case WriteOk(r) => In(s, r, Writing)
    case WriteCancelled(r) => In(s, r, Writing) && s.closed
    case WriteBroken(r, _) => In(s, r, Writing)
    case BrokenDone(r) => In(s, r, Failing) && Writer(r) !in s.closers
    case Receive(r) => In(s, r, Waiting) && r < |s.table.channels| && s.table.channels[r] != Empty
    case Timeout(r) => In(s, r, Waiting)
    case Abort(r) => In(s, r, Writing) || In(s, r, Waiting)
    case DropGuard(r) => Ending(s, r) && s.lock.None?
    case Take(_) => s.reading && s.lock.None? && s.hand.None?
    case Send => s.hand.Some? && s.hand.value.owner < |s.table.channels|
    case ServerRequest(_) => s.reading && s.hand.None?
    case Respond(_) => true
    case OwnClose(_) => true
    case CloseBegin(c, cause) =>
      !c.Writer? && c !in s.closers && (cause.None? ==> s.closed) && (c == Reader ==> s.hand.None?)
    case Cancel(c) => c in s.closers && s.closers[c] == Recorded
    case Drain(c) => c in s.closers && s.closers[c] == Cancelled && s.lock.None?
  }

  function Go(s: State, r: Request, phase: Phase): State
    requires r < |s.phases|
  {
    s.(phases := s.phases[r := phase])
  }

  /** `record_close_reason`: the first message stays. */
  function FirstReason(reason: Option<string>, message: string): Option<string> {
    if reason.Some? then reason else Some(message)
  }

  function Next(s: State, step: Step): State
    requires Enabled(s, step) && Owned(s.table)
  {
    match step
    case Start => s.(phases := s.phases + [Allocated],
                     table := Table(s.table.pending, s.table.channels + [Empty]))
    case Check(r) => if s.closed then Go(s, r, Done(ConnectionError)) else Go(s, r, Checked).(lock := Some(r))
    case Insert(r) => Go(s, r, Writing).(lock := None, table := InsertKey(s.table, Key(r), r))
    case WriteOk(r) => Go(s, r, Waiting)
    case WriteCancelled(r) => Go(s, r, Finishing(ConnectionError))
    case WriteBroken(r, message) =>
      Go(s, r, Failing).(reason := FirstReason(s.reason, message), closers := s.closers[Writer(r) := Recorded])
    case BrokenDone(r) => Go(s, r, Finishing(ConnectionError))
    case Receive(r) =>
      (match s.table.channels[r]
       case Delivered(i) => Go(s, r, Finishing(Answered(i)))
       case _ => Go(s, r, Finishing(ConnectionError)))
    case Timeout(r) => Go(s, r, Finishing(TimedOut))
    case Abort(r) => Go(s, r, Finishing(Aborted))
    case DropGuard(r) => Go(s, r, Done(s.phases[r].o)).(table := DropKey(s.table, Key(r)))
    case Take(reply) =>
      if reply.key !in s.table.pending then s.(replies := s.replies + [reply])
      else s.(replies := s.replies + [reply], table := Taken(s.table, reply.key),
              hand := Some(Hand(s.table.pending[reply.key], |s.replies|)))
    case Send => s.(table := Sent(s.table, s.hand.value.owner, s.hand.value.reply), hand := None)
    case ServerRequest(id) =>
      s.(arrivals := s.arrivals + [id], serverReqs := s.serverReqs[TokenOf(id) := |s.arrivals|])
    case Respond(token) =>
      if token !in s.serverReqs then s
      else s.(serverReqs := s.serverReqs - {token}, answers := s.answers + [s.serverReqs[token]])
    case OwnClose(message) => s.(reason := FirstReason(s.reason, message))
    case CloseBegin(c, cause) =>
      s.(closers := s.closers[c := Recorded],
         reading := s.reading && c != Reader,
         reason := if cause.Some? then FirstReason(s.reason, cause.value) else s.reason)
    case Cancel(c) => s.(closed := true, closers := s.closers[c := Cancelled])
    case Drain(c) => s.(table := DrainAll(s.table), drained := true, closers := s.closers - {c})
  }

  // ---------- the tables as an object ----------

  /** What the source keeps behind its locks and atomics. */
  class Connection {
    var closed: bool
    var reason: Option<string>
    var nextId: nat
    var pending: map<string, Request>
    var channels: seq<Channel>
    var serverReqs: map<string, RequestId>

    function View(): Table
      reads this
    {
      Table(pending, channels)
    }

    constructor ()
      ensures !closed && reason == None && nextId == 1 && View() == INIT.table && serverReqs == map[]
    {
      closed, reason, nextId := false, None, 1;
      pending, channels, serverReqs := map[], [], map[];
    }

    /** `fetch_add(1)` and `to_string`. */
    method DrawId() returns (id: string)
      requires nextId < U64
      modifies `nextId
      ensures nextId == (old(nextId) + 1) % U64
      ensures forall r: Request :: old(nextId) == (1 + r) % U64 ==> id == Key(r)
    {
      id := Decimal(nextId);
      nextId := (nextId + 1) % U64;
    }

    /** The check and insert of `request_inner` under one lock. */
    method Register(id: string, r: Request) returns (ok: bool)
      requires Owned(View())
      modifies `pending, `channels
      ensures ok == !closed
      ensures View() == if ok then InsertKey(old(View()), id, r) else old(View())
    {
      if closed {
        return false;
      }
      if id in pending {
        channels := channels[pending[id] := Refuse(channels[pending[id]])];
      }
      pending := pending[id := r];
      assert pending == InsertKey(old(View()), id, r).pending;
      ok := true;
    }

    /** `take_pending`: the entry a response or error frame is for, removed. */
    method TakePending(id: RequestId) returns (owner: Option<Request>)
      modifies `pending
      ensures View() == Taken(old(View()), TokenOf(id))
      ensures owner == if TokenOf(id) in old(pending) then Some(old(pending)[TokenOf(id)]) else None
    {
      var key := TokenOf(id);
      owner := if key in pending then Some(pending[key]) else None;
      pending := pending - {key};
    }

    /** The send that follows, once the lock is released. */
    method SendTo(owner: Request, reply: nat)
      requires owner < |channels|
      modifies `channels
      ensures View() == Sent(old(View()), owner, reply)
    {
      channels := channels[owner := Delivered(reply)];
    }

    method RecordCloseReason(message: string)
      modifies `reason
      ensures reason == FirstReason(old(reason), message)
    {
      if reason.None? {
        reason := Some(message);
      }
    }

    /** `close_connection`: cancel, then refuse everything that is registered. */
    method CloseConnection()
      requires Owned(View())
      modifies `closed, `pending, `channels
      ensures closed && View() == DrainAll(old(View()))
    {
      closed := true;
      while pending != map[]
        invariant closed && Owned(View()) && |channels| == |old(channels)|
        invariant pending.Keys <= old(pending).Keys
        invariant forall k :: k in pending ==> pending[k] == old(pending)[k]
        invariant forall i :: 0 <= i < |channels| ==>
          channels[i] == if exists k :: k in old(pending) && k !in pending && old(pending)[k] == i
                         then Refuse(old(channels)[i]) else old(channels)[i]
        decreases |pending|
      {
        var key :| key in pending;
        var owner := pending[key];
        ghost var before := pending;
        channels := channels[owner := Refuse(channels[owner])];
        pending := pending - {key};
        assert |pending| < |before| by {
          assert |before| == |before.Keys| && |pending| == |pending.Keys| && pending.Keys == before.Keys - {key};
        }
        assert owner == old(pending)[key] && key !in pending;
      }
      ghost var target := DrainAll(old(View()));
      forall i | 0 <= i < |channels| ensures channels[i] == target.channels[i] {
        if i in old(pending).Values {
          var k :| k in old(pending) && old(pending)[k] == i;
          assert k !in pending;
        }
      }
      assert pending == target.pending;
      assert channels == target.channels;
    }

    /** `PendingRequest::drop`. */
    method DropRegistration(id: string)
      requires Owned(View())
      modifies `pending, `channels
      ensures View() == DropKey(old(View()), id)
    {
      if id in pending {
        channels := channels[pending[id] := Refuse(channels[pending[id]])];
      }
      pending := pending - {id};
    }

    method RecordServerRequest(id: RequestId)
      modifies `serverReqs
      ensures serverReqs == old(serverReqs)[TokenOf(id) := id]
    {
      serverReqs := serverReqs[TokenOf(id) := id];
    }

    /** The id `respond` answers with; `None` for an unknown token. */
    method TakeServerRequest(token: string) returns (id: Option<RequestId>)
      modifies `serverReqs
      ensures id == if token in old(serverReqs) then Some(old(serverReqs)[token]) else None
      ensures serverReqs == old(serverReqs) - {token}
    {
      id := if token in serverReqs then Some(serverReqs[token]) else None;
      serverReqs := serverReqs - {token};
    }
  }
}
