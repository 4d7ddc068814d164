/** The state the daemon's browser bridge keeps under its lock, and what each
    locked section does to it. The class in BrowserBridge.dfy is proved against
    these functions, and the step system in BridgeRuns.dfy is built from them. */
module BridgeState {
  import opened Wrappers

  type RequestId = nat      // the n of "bridge-{n}"
  type ConnectionId = nat
  type Json = string        // a JSON value, as text

  datatype Status = Waiting | Attached | Disconnected | Error

  datatype Snapshot = Snapshot(
    status: Status,
    browser: Option<string>,
    connectedAt: Option<string>,
    lastError: Option<string>)

  // The sending half of the one-shot channel on which `caller` waits.
  datatype Sender = Sender(caller: RequestId)

  datatype Failure =
    | NotAttached(status: Status)
    | ConnectionReplaced
    | Reported(message: string)
    | ConnectionLost(error: Option<string>)
    | MissingPayload
    | Remote(code: Option<int>, error: Option<string>)

  type Reply = Result<Json, Failure>

  // `transport` names the connection that owns the receiving half of the channel.
  datatype State = State(
    snapshot: Snapshot,
    transport: Option<ConnectionId>,
    activeConnectionId: Option<ConnectionId>,
    pending: map<RequestId, Sender>)

  const INITIAL := State(Snapshot(Waiting, None, None, None), None, None, map[])

  /** A transport exists exactly when a connection is active, the same one, and
      exactly then the status is attached and a connection time is recorded. */
  ghost predicate Coupled(s: State) {
    && s.transport == s.activeConnectionId
    && (s.activeConnectionId.Some? <==> s.snapshot.status == Attached)
    && (s.activeConnectionId.Some? <==> s.snapshot.connectedAt.Some?)
    && (s.pending != map[] ==> s.activeConnectionId.Some?)
  }

  function Attach(s: State, connection: ConnectionId, browser: string, now: string): State {
    State(Snapshot(Attached, Some(browser), Some(now), None), Some(connection), Some(connection), map[])
  }

  predicate Detaching(status: Status) {
    status == Disconnected || status == Error
  }

  function MarkStatus(s: State, connection: ConnectionId, status: Status, error: Option<string>): State {
    if s.activeConnectionId != Some(connection) then s else
      var kept := if status == Attached then s.snapshot.connectedAt else None;
      var marked := s.(snapshot := Snapshot(status, s.snapshot.browser, kept, error));
      if Detaching(status) then marked.(transport := None, activeConnectionId := None, pending := map[])
      else marked
  }

  /** The batch `mark_status` hands to its caller; None when the connection is not active. */
  function MarkedBatch(s: State, connection: ConnectionId, status: Status): Option<map<RequestId, Sender>> {
    if s.activeConnectionId != Some(connection) then None
    else if Detaching(status) then Some(s.pending)
    else Some(map[])
  }

  function Complete(s: State, request: RequestId): State {
    s.(pending := s.pending - {request})
  }

  datatype Admission = NoTransport | StatusNotAttached | SendFailed | Parked

  /** `receiverAlive` says whether the handler that owns the transport still runs. */
  function Admit(s: State, receiverAlive: bool): Admission {
    if s.transport.None? then NoTransport
    else if s.snapshot.status != Attached then StatusNotAttached
    else if !receiverAlive then SendFailed
    else Parked
  }

  function Enqueue(s: State, request: RequestId, receiverAlive: bool): State {
    match Admit(s, receiverAlive)
    case Parked => s.(pending := s.pending[request := Sender(request)])
    case SendFailed => s.(pending := s.pending - {request})
    case _ => s
  }

  /** Of the statuses `mark_status` can be given, only "waiting" on the active
      connection breaks the coupling; the two callers in the daemon pass "error"
      and "disconnected". */
  lemma MarkStatusKeepsCoupling(s: State, connection: ConnectionId, status: Status, error: Option<string>)
    requires Coupled(s)
    ensures Coupled(MarkStatus(s, connection, status, error))
       <==> (s.activeConnectionId != Some(connection) || status != Waiting)
  {
    var t := MarkStatus(s, connection, status, error);
    if s.activeConnectionId == Some(connection) && status == Waiting {
      assert t.activeConnectionId.Some? && t.snapshot.status != Attached;
    }
  }

  /** What a mark of the active connection publishes, for every status: the status and
      the error given, the name kept, and the time kept only by "attached"; "error" and
      "disconnected" let go of the connection and of everything parked, the others of
      nothing. A mark of any other connection changes nothing. */
  lemma MarkPublishes(s: State, connection: ConnectionId, status: Status, error: Option<string>)
    ensures var t := MarkStatus(s, connection, status, error);
            if s.activeConnectionId != Some(connection) then t == s else
              && t.snapshot.status == status && t.snapshot.lastError == error && t.snapshot.browser == s.snapshot.browser
              && t.snapshot.connectedAt == (if status.Attached? then s.snapshot.connectedAt else None)
              && (if status.Disconnected? || status.Error? then
                    t.transport.None? && t.activeConnectionId.None? && t.pending == map[]
                  else
                    t.transport == s.transport && t.activeConnectionId == s.activeConnectionId && t.pending == s.pending)
  {
  }

  /** The second guard of `enqueue_request` never fires on a coupled state. */
  lemma SecondGuardNeverFires(s: State, receiverAlive: bool)
    requires Coupled(s)
    ensures Admit(s, receiverAlive) != StatusNotAttached
    ensures Admit(s, receiverAlive) == NoTransport <==> s.snapshot.status != Attached
  {
    assert s.transport.Some? <==> s.snapshot.status == Attached;
  }
}
