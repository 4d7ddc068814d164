/** Every interleaving of connections and callers around the bridge. One step is
    one locked section, one send made after a lock was released, or one wake-up
    of a caller. */
module BridgeRuns {
  import opened Wrappers
  import opened B = BridgeState

  datatype Origin = Answer(connection: ConnectionId) | FromReplacement | FromDetach

  // A sender removed from `pending`, with the reply about to be sent on it.
  datatype Held = Held(sender: Sender, reply: Reply, origin: Origin)

  // One `sender.send`: the request it was parked under and the slot it fills.
  datatype Delivery = Delivery(request: RequestId, caller: RequestId, reply: Reply, origin: Origin)

  // What one call of `enqueue_request` returned.
  datatype Return = Refused(failure: Failure) | GotReply(reply: Reply) | TimedOut

  datatype World = World(
    bridge: State,
    nextRequest: nat,
    nextConnection: nat,
    drawn: set<RequestId>,                  // id drawn, lock not yet taken
    refused: set<RequestId>,                // not parked: guard failed or send failed
    held: map<RequestId, Held>,
    sends: seq<Delivery>,                   // history of sends
    awaiting: set<RequestId>,               // callers blocked on their slot
    returned: map<RequestId, Return>,
    routed: map<RequestId, ConnectionId>,   // history: the transport a request was sent on
    payloads: map<RequestId, Json>,         // history: the payload sent with it
    handshaking: set<ConnectionId>,         // accepted, not yet attached
    exited: set<ConnectionId>)              // handler returned, receiver dropped

  datatype Step =
    | Issue
    | Submit(id: RequestId, payload: Json)
    | Accept
    | Join(c: ConnectionId, browser: string, now: string)
    | Detach(c: ConnectionId, fault: bool, error: Option<string>)
    | Respond(c: ConnectionId, id: RequestId, reply: Reply)
    | Send(id: RequestId)
    | Wake(id: RequestId)
    | Expire(id: RequestId)
    | Exit(c: ConnectionId)

  const START := World(INITIAL, 1, 1, {}, {}, map[], [], {}, map[], map[], map[], {}, {})

  /** Everything ever sent into one caller's reply slot. */
  ghost function Slot(sends: seq<Delivery>, caller: RequestId): seq<Reply> {
    if sends == [] then [] else
      var last := sends[|sends| - 1];
      Slot(sends[..|sends| - 1], caller) + if last.caller == caller then [last.reply] else []
  }

  predicate Serving(w: World, c: ConnectionId) {
    1 <= c < w.nextConnection && c !in w.exited
  }

  ghost predicate Enabled(w: World, s: Step) {
    match s
    case Issue => true
    case Submit(id, _) => id in w.drawn
    case Accept => true
    case Join(c, _, _) => c in w.handshaking && Serving(w, c)
    case Detach(c, _, _) => Serving(w, c)
    case Respond(c, _, _) => Serving(w, c) && c !in w.handshaking
    case Send(id) => id in w.held
    case Wake(id) => id in w.awaiting && Slot(w.sends, id) != []
    case Expire(id) => id in w.awaiting && Slot(w.sends, id) == []   // the slot is polled before the timer
    case Exit(c) => Serving(w, c)
  }

  function HoldAll(batch: map<RequestId, Sender>, failure: Failure, origin: Origin): map<RequestId, Held> {
    map id | id in batch :: Held(batch[id], Err(failure), origin)
  }

  predicate ReceiverAlive(w: World) {
    w.bridge.transport.Some? && w.bridge.transport.value !in w.exited
  }

  function Numbered(w: World): World {
    w.(nextRequest := w.nextRequest + 1, drawn := w.drawn + {w.nextRequest})
  }

  function Submitted(w: World, id: RequestId, payload: Json): World {
    var admission := Admit(w.bridge, ReceiverAlive(w));
    var w1 := w.(drawn := w.drawn - {id}, bridge := Enqueue(w.bridge, id, ReceiverAlive(w)));
    if admission == Parked then
      w1.(awaiting := w.awaiting + {id}, routed := w.routed[id := w.bridge.transport.value],
               payloads := w.payloads[id := payload])
    else
      var status := if admission == SendFailed then Disconnected else w.bridge.snapshot.status;
      w1.(refused := w.refused + {id}, returned := w.returned[id := Refused(NotAttached(status))])
  }

  function Joined(w: World, c: ConnectionId, browser: string, now: string): World {
    w.(bridge := Attach(w.bridge, c, browser, now),
       handshaking := w.handshaking - {c},
       held := w.held + HoldAll(w.bridge.pending, ConnectionReplaced, FromReplacement))
  }

  // `mark_error` always carries a text; `mark_disconnected` may carry none.
  function Detached(w: World, c: ConnectionId, fault: bool, error: Option<string>): World {
    var status := if fault then Error else Disconnected;
    var failure := if fault && error.Some? then Reported(error.value) else ConnectionLost(error);
    var batch := MarkedBatch(w.bridge, c, status);
    w.(bridge := MarkStatus(w.bridge, c, status, error),
       held := w.held + HoldAll(if batch.Some? then batch.value else map[], failure, FromDetach))
  }

  function Responded(w: World, c: ConnectionId, id: RequestId, reply: Reply): World {
    if id !in w.bridge.pending then w else
      w.(bridge := Complete(w.bridge, id),
         held := w.held[id := Held(w.bridge.pending[id], reply, Answer(c))])
  }

  function Sent(w: World, id: RequestId): World
    requires id in w.held
  {
    var h := w.held[id];
    w.(held := w.held - {id}, sends := w.sends + [Delivery(id, h.sender.caller, h.reply, h.origin)])
  }

  function Finished(w: World, id: RequestId, outcome: Return): World {
    w.(awaiting := w.awaiting - {id}, returned := w.returned[id := outcome])
  }

  ghost function Apply(w: World, s: Step): World
    requires Enabled(w, s)
  {
    match s
    case Issue => Numbered(w)
    case Accept => w.(nextConnection := w.nextConnection + 1, handshaking := w.handshaking + {w.nextConnection})
    case Submit(id, payload) => Submitted(w, id, payload)
    case Join(c, browser, now) => Joined(w, c, browser, now)
    case Detach(c, fault, error) => Detached(w, c, fault, error)
    case Respond(c, id, reply) => Responded(w, c, id, reply)
    case Send(id) => Sent(w, id)
    case Wake(id) => Finished(w, id, GotReply(Slot(w.sends, id)[0]))
    case Expire(id) => Finished(w, id, TimedOut)
    case Exit(c) => w.(exited := w.exited + {c})
  }

  ghost predicate Valid(w: World, run: seq<Step>)
    decreases |run|
  {
    run == [] || (Enabled(w, run[0]) && Valid(Apply(w, run[0]), run[1..]))
  }

  ghost function Exec(w: World, run: seq<Step>): World
    requires Valid(w, run)
    decreases |run|
  {
    if run == [] then w else Exec(Apply(w, run[0]), run[1..])
  }

  ghost predicate Reachable(w: World) {
    exists run :: Valid(START, run) && Exec(START, run) == w
  }

  // ---------- where a request id is ----------

  ghost predicate Settled(w: World, id: RequestId) {
    Slot(w.sends, id) != []
  }

  ghost function Count(b: bool): nat { if b then 1 else 0 }

  /** The number of places that hold request `id`. */
  ghost function Places(w: World, id: RequestId): nat {
    Count(id in w.drawn) + Count(id in w.refused) + Count(id in w.bridge.pending)
    + Count(id in w.held) + Count(Settled(w, id))
  }

  ghost predicate Issued(w: World, id: RequestId) {
    1 <= id < w.nextRequest
  }

  ghost predicate Conserved(w: World) {
    && (forall id: RequestId :: Places(w, id) == Count(Issued(w, id)))
    && (forall id: RequestId :: |Slot(w.sends, id)| <= 1)
  }

  /** Every sender still leads to the caller that issued its request. */
  ghost predicate Addressed(w: World) {
    && (forall id | id in w.bridge.pending :: w.bridge.pending[id] == Sender(id))
    && (forall id | id in w.held :: w.held[id].sender == Sender(id))
    && (forall i | 0 <= i < |w.sends| :: w.sends[i].caller == w.sends[i].request)
  }

  /** Pending requests were sent on the transport of the active connection. */
  ghost predicate Routed(w: World) {
    && (forall id | id in w.bridge.pending ::
          id in w.routed && w.bridge.activeConnectionId == Some(w.routed[id]))
    && (forall id | id in w.held :: id in w.routed)
    && (forall i | 0 <= i < |w.sends| :: w.sends[i].request in w.routed)
    && (forall id | id in w.routed :: Issued(w, id) && id !in w.drawn && id in w.payloads)
  }

  ghost predicate Callers(w: World) {
    && (forall id | id in w.awaiting ::
          id !in w.returned && (id in w.bridge.pending || id in w.held || Settled(w, id)))
    && (forall id: RequestId :: Issued(w, id) && id !in w.drawn ==> id in w.awaiting || id in w.returned)
    && (forall id | id in w.returned :: Issued(w, id) && id !in w.drawn)
    && (forall id | id in w.returned ::
          match w.returned[id]
          case Refused(_) => id in w.refused
          case GotReply(r) => Slot(w.sends, id) == [r]
          case TimedOut => id !in w.refused)
  }

  ghost predicate Connections(w: World) {
    && w.nextConnection >= 1
    && (forall c | c in w.handshaking :: 1 <= c < w.nextConnection)
    && (forall c | c in w.exited :: 1 <= c < w.nextConnection)
    && (w.bridge.activeConnectionId.Some? ==>
          1 <= w.bridge.activeConnectionId.value < w.nextConnection
          && w.bridge.activeConnectionId.value !in w.handshaking)
  }

  ghost predicate Requests(w: World) {
    Conserved(w) && Addressed(w) && Routed(w) && Callers(w)
  }

  ghost predicate Inv(w: World) {
    w.nextRequest >= 1 && Coupled(w.bridge) && Requests(w) && Connections(w)
  }

  lemma SlotAppend(sends: seq<Delivery>, d: Delivery, caller: RequestId)
    ensures Slot(sends + [d], caller) == Slot(sends, caller) + if d.caller == caller then [d.reply] else []
  {
    assert (sends + [d])[..|sends|] == sends;
  }

  lemma CoupledStep(w: World, s: Step)
    requires Coupled(w.bridge) && Enabled(w, s)
    ensures Coupled(Apply(w, s).bridge)
  {
    if s.Detach? {
      MarkStatusKeepsCoupling(w.bridge, s.c, if s.fault then Error else Disconnected, s.error);
    }
  }

  lemma SendConserves(w: World, id: RequestId)
    requires Conserved(w) && Addressed(w) && id in w.held
    ensures Conserved(Sent(w, id))
  {
    var w' := Sent(w, id);
    assert Places(w, id) == Count(Issued(w, id));
    forall k: RequestId ensures Places(w', k) == Count(Issued(w', k)) && |Slot(w'.sends, k)| <= 1 {
      SlotAppend(w.sends, w'.sends[|w.sends|], k);
      assert Places(w, k) == Count(Issued(w, k));
    }
  }

  lemma SubmitConserves(w: World, id: RequestId, payload: Json)
    requires Conserved(w) && id in w.drawn
    ensures Conserved(Submitted(w, id, payload))
  {
    var w' := Submitted(w, id, payload);
    assert Places(w, id) == Count(Issued(w, id));
    forall k: RequestId ensures Places(w', k) == Count(Issued(w', k)) {
      assert Places(w, k) == Count(Issued(w, k));
    }
  }

  /** From w to v senders move from `pending` to `held` and nothing else happens
      to any request. */
  ghost predicate Shifts(w: World, v: World) {
    && v.nextRequest == w.nextRequest && v.drawn == w.drawn && v.refused == w.refused
    && v.sends == w.sends && v.awaiting == w.awaiting && v.returned == w.returned && v.routed == w.routed && v.payloads == w.payloads
    && (forall id | id in w.bridge.pending || id in w.held ::
          if id in v.bridge.pending then
            id !in v.held && id in w.bridge.pending && v.bridge.pending[id] == w.bridge.pending[id]
            && v.bridge.activeConnectionId == w.bridge.activeConnectionId
          else
            id in v.held
            && v.held[id].sender == if id in w.held then w.held[id].sender else w.bridge.pending[id])
    && (forall id | id in v.bridge.pending || id in v.held :: id in w.bridge.pending || id in w.held)
  }

  predicate IsConnectionStep(s: Step) {
    s.Accept? || s.Join? || s.Detach? || s.Respond? || s.Exit?
  }

  lemma ConnectionStepShifts(w: World, s: Step)
    requires Enabled(w, s) && IsConnectionStep(s)
    requires w.bridge.pending.Keys !! w.held.Keys
    ensures Shifts(w, Apply(w, s))
  {
  }

  lemma PendingAndHeldAreDisjoint(w: World)
    requires Conserved(w)
    ensures w.bridge.pending.Keys !! w.held.Keys
  {
    forall id | id in w.bridge.pending ensures id !in w.held {
      assert Places(w, id) == Count(Issued(w, id));
    }
  }

  lemma ShiftKeepsRequests(w: World, v: World)
    requires Shifts(w, v) && Requests(w)
    ensures Requests(v)
  {
    PendingAndHeldAreDisjoint(w);
    forall k: RequestId ensures Places(v, k) == Count(Issued(v, k)) {
      assert Places(w, k) == Count(Issued(w, k));
    }
  }

  // The send fills the slot of its own request and no other.
  lemma SendFillsOneSlot(w: World, id: RequestId)
    requires Conserved(w) && Addressed(w) && id in w.held
    ensures Slot(w.sends, id) == [] && Slot(Sent(w, id).sends, id) == [w.held[id].reply]
    ensures forall k: RequestId | k != id :: Slot(Sent(w, id).sends, k) == Slot(w.sends, k)
  {
    assert Places(w, id) == Count(Issued(w, id));
    forall k: RequestId ensures Slot(Sent(w, id).sends, k) == Slot(w.sends, k) + if k == id then [w.held[id].reply] else [] {
      SlotAppend(w.sends, Sent(w, id).sends[|w.sends|], k);
    }
  }

  lemma SendKeepsCallers(w: World, id: RequestId)
    requires Conserved(w) && Addressed(w) && Callers(w) && id in w.held
    ensures Callers(Sent(w, id))
  {
    SendFillsOneSlot(w, id);
  }

  lemma SendKeepsRequests(w: World, id: RequestId)
    requires Requests(w) && id in w.held
    ensures Requests(Sent(w, id))
  {
    SendConserves(w, id);
    SendKeepsCallers(w, id);
  }

  lemma DrawnIsNowhereElse(w: World, id: RequestId)
    requires Conserved(w) && Callers(w) && id in w.drawn
    ensures id !in w.bridge.pending && id !in w.held && id !in w.refused && !Settled(w, id)
    ensures id !in w.awaiting && id !in w.returned && Issued(w, id)
  {
    assert Places(w, id) == Count(Issued(w, id));
  }

  lemma ParkKeepsCallers(w: World, id: RequestId, payload: Json)
    requires Conserved(w) && Callers(w) && id in w.drawn && Admit(w.bridge, ReceiverAlive(w)) == Parked
    ensures Callers(Submitted(w, id, payload))
  {
    DrawnIsNowhereElse(w, id);
  }

  lemma RefuseKeepsCallers(w: World, id: RequestId, payload: Json)
    requires Conserved(w) && Callers(w) && id in w.drawn && Admit(w.bridge, ReceiverAlive(w)) != Parked
    ensures Callers(Submitted(w, id, payload))
  {
    DrawnIsNowhereElse(w, id);
  }

  lemma SubmitKeepsCallers(w: World, id: RequestId, payload: Json)
    requires Conserved(w) && Callers(w) && id in w.drawn
    ensures Callers(Submitted(w, id, payload))
  {
    if Admit(w.bridge, ReceiverAlive(w)) == Parked {
      ParkKeepsCallers(w, id, payload);
    } else {
      RefuseKeepsCallers(w, id, payload);
    }
  }

  lemma SubmitKeepsAddresses(w: World, id: RequestId, payload: Json)
    requires Addressed(w)
    ensures Addressed(Submitted(w, id, payload))
  {
  }

  lemma SubmitKeepsRoutes(w: World, id: RequestId, payload: Json)
    requires Coupled(w.bridge) && Conserved(w) && Routed(w) && id in w.drawn
    ensures Routed(Submitted(w, id, payload))
  {
    assert Places(w, id) == Count(Issued(w, id));
    assert id !in w.routed && id !in w.held;
  }

  lemma SubmitKeepsRequests(w: World, id: RequestId, payload: Json)
    requires Coupled(w.bridge) && Requests(w) && id in w.drawn
    ensures Requests(Submitted(w, id, payload))
  {
    SubmitConserves(w, id, payload);
    SubmitKeepsAddresses(w, id, payload);
    SubmitKeepsRoutes(w, id, payload);
    SubmitKeepsCallers(w, id, payload);
  }

  lemma FinishKeepsCallers(w: World, id: RequestId, outcome: Return)
    requires Conserved(w) && Callers(w) && id in w.awaiting
    requires outcome == TimedOut || (Slot(w.sends, id) != [] && outcome == GotReply(Slot(w.sends, id)[0]))
    ensures Callers(Finished(w, id, outcome))
  {
    assert |Slot(w.sends, id)| <= 1;
    assert Places(w, id) == Count(Issued(w, id));
  }

  // Steps that touch no place of any request: only the callers need an argument.
  lemma StillKeepsRequests(w: World, v: World)
    requires Requests(w) && Callers(v)
    requires v.nextRequest == w.nextRequest && v.drawn == w.drawn && v.refused == w.refused
    requires v.bridge == w.bridge && v.held == w.held && v.sends == w.sends && v.routed == w.routed && v.payloads == w.payloads
    ensures Requests(v)
  {
    forall k: RequestId ensures Places(v, k) == Count(Issued(v, k)) {
      assert Places(w, k) == Count(Issued(w, k));
    }
  }

  lemma IssueConserves(w: World)
    requires w.nextRequest >= 1 && Conserved(w)
    ensures Conserved(Numbered(w))
  {
    forall k: RequestId ensures Places(Numbered(w), k) == Count(Issued(Numbered(w), k)) {
      assert Places(w, k) == Count(Issued(w, k));
    }
  }

  lemma IssueKeepsRequests(w: World)
    requires w.nextRequest >= 1 && Requests(w)
    ensures Requests(Numbered(w))
  {
    IssueConserves(w);
  }

  lemma RequestsStep(w: World, s: Step)
    requires w.nextRequest >= 1 && Coupled(w.bridge) && Requests(w) && Enabled(w, s)
    ensures Requests(Apply(w, s))
  {
    match s
    case Issue => IssueKeepsRequests(w);
    case Submit(id, payload) => SubmitKeepsRequests(w, id, payload);
    case Send(id) => SendKeepsRequests(w, id);
    case Wake(id) =>
      var outcome := GotReply(Slot(w.sends, id)[0]);
      FinishKeepsCallers(w, id, outcome);
      StillKeepsRequests(w, Finished(w, id, outcome));
    case Expire(id) =>
      FinishKeepsCallers(w, id, TimedOut);
      StillKeepsRequests(w, Finished(w, id, TimedOut));
    case _ =>
      PendingAndHeldAreDisjoint(w);
      ConnectionStepShifts(w, s);
      ShiftKeepsRequests(w, Apply(w, s));
  }

  lemma ConnectionsStep(w: World, s: Step)
    requires Connections(w) && Enabled(w, s)
    ensures Connections(Apply(w, s))
  {
  }

  lemma StepKeepsInv(w: World, s: Step)
    requires Inv(w) && Enabled(w, s)
    ensures Inv(Apply(w, s))
  {
    CoupledStep(w, s);
    RequestsStep(w, s);
    ConnectionsStep(w, s);
  }
}
