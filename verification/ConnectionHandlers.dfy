/** The two loops that serve a connection, and the one way they differ that
    matters: how the bridge is left when they return.

    In the browser loop an error in a branch (bad JSON, a failed receive, a failed
    write) leaves the whole function through `?`, past the `mark_error` that
    follows the loop. The native loop marks the connection before it breaks. */
module ConnectionHandlers {
  import opened Wrappers
  import opened B = BridgeState
  import opened R = BridgeRuns
  import T = BridgeTheorems
  import BB = BrowserBridge

  datatype Mode = BrowserMode | NativeMode

  datatype Report = ReportError | ReportDisconnected | ReportAttached | ReportOther

  datatype Event =
    | OutboundClosed                        // every sender of the transport was dropped
    | EncodeFailed(text: string)
    | WriteFailed(text: string)
    | InboundEnded(text: string)            // end of stream or close frame
    | ReceiveFailed(text: string)
    | Malformed(text: string)
    | Hello
    | StatusReport(report: Report, error: Option<string>)
    | Response(id: RequestId, ok: bool, payload: Option<Json>, code: Option<int>, error: Option<string>)

  const UNKNOWN_BROWSER_ERROR := "Browser bridge reported an unknown error."
  const UNKNOWN_NATIVE_ERROR := "Native host reported an unknown error."

  function TextOr(text: Option<string>, otherwise: string): string {
    if text.Some? then text.value else otherwise
  }

  function ReplyOf(mode: Mode, ok: bool, payload: Option<Json>, code: Option<int>, error: Option<string>): Reply {
    if !ok then Err(Remote(code, error))
    else if payload.Some? then Ok(payload.value)
    else if mode == NativeMode then Ok("null")
    else Err(MissingPayload)
  }

  /** The steps the handler of connection `c` takes on one event. */
  function Steps(mode: Mode, c: ConnectionId, e: Event): seq<Step> {
    match e
    case OutboundClosed => if mode == BrowserMode then [Exit(c)] else []
    case EncodeFailed(text) => if mode == BrowserMode then [Exit(c)] else [Detach(c, true, Some(text)), Exit(c)]
    case WriteFailed(text) => if mode == BrowserMode then [Exit(c)] else [Detach(c, false, Some(text)), Exit(c)]
    case InboundEnded(text) => [Detach(c, false, if mode == BrowserMode then None else Some(text)), Exit(c)]
    case ReceiveFailed(text) => if mode == BrowserMode then [Exit(c)] else [Detach(c, false, Some(text)), Exit(c)]
    case Malformed(text) => if mode == BrowserMode then [Exit(c)] else [Detach(c, true, Some(text)), Exit(c)]
    case Hello => []
    case StatusReport(ReportError, error) =>
      if mode == BrowserMode then [Detach(c, true, Some(TextOr(error, UNKNOWN_BROWSER_ERROR)))]
      else [Detach(c, true, Some(TextOr(error, UNKNOWN_NATIVE_ERROR))), Exit(c)]
    case StatusReport(ReportDisconnected, error) =>
      if mode == BrowserMode then [Detach(c, false, error)] else [Detach(c, false, error), Exit(c)]
    case StatusReport(_, _) => []
    case Response(id, ok, payload, code, error) => [Respond(c, id, ReplyOf(mode, ok, payload, code, error))]
  }

  /** The events whose error leaves the browser loop through `?`. */
  predicate EscapesLoop(mode: Mode, e: Event) {
    mode == BrowserMode && (e.EncodeFailed? || e.WriteFailed? || e.ReceiveFailed? || e.Malformed?)
  }

  /** The bridge reports itself attached to a connection nobody serves. */
  predicate Wedged(w: World) {
    w.bridge.transport.Some? && w.bridge.transport.value in w.exited
  }

  /** The receiver yields nothing only when no sender is left, so not while the
      bridge still holds this connection's transport. */
  predicate Possible(w: World, c: ConnectionId, e: Event) {
    e.OutboundClosed? ==> w.bridge.transport != Some(c)
  }

  lemma ExecOne(w: World, s: Step)
    requires Enabled(w, s)
    ensures Valid(w, [s]) && Exec(w, [s]) == Apply(w, s)
  {
    assert [s][1..] == [];
  }

  lemma ExecTwo(w: World, s: Step, t: Step)
    requires Enabled(w, s) && Enabled(Apply(w, s), t)
    ensures Valid(w, [s, t]) && Exec(w, [s, t]) == Apply(Apply(w, s), t)
  {
    assert [s, t][1..] == [t];
    ExecOne(Apply(w, s), t);
  }

  lemma MarkThenExitIsClean(w: World, c: ConnectionId, fault: bool, error: Option<string>)
    requires Inv(w) && Serving(w, c) && w.bridge.activeConnectionId == Some(c)
    ensures Valid(w, [Detach(c, fault, error)]) && !Wedged(Exec(w, [Detach(c, fault, error)]))
    ensures Valid(w, [Detach(c, fault, error), Exit(c)]) && !Wedged(Exec(w, [Detach(c, fault, error), Exit(c)]))
  {
    ExecOne(w, Detach(c, fault, error));
    ExecTwo(w, Detach(c, fault, error), Exit(c));
  }

  // ---------- what an event gives to the parked requests ----------

  /** The reply to a response: its payload in either mode; if it is a success without
      one, null from the native host and a failure from the browser; else a failure with
      the response's own code and error. */
  predicate Says(mode: Mode, ok: bool, payload: Option<Json>, code: Option<int>, error: Option<string>, reply: Reply) {
    && (ok && payload.Some? ==> reply == Ok(payload.value))
    && (ok && payload.None? && mode.NativeMode? ==> reply == Ok("null"))
    && (ok && payload.None? && mode.BrowserMode? ==> reply == Err(MissingPayload))
    && (!ok ==> reply == Err(Remote(code, error)))
  }

  /** The failure of everything parked, when the event marks the connection. */
  function Marking(mode: Mode, e: Event): Option<Failure> {
    match (mode, e)
    case (BrowserMode, InboundEnded(_)) => Some(ConnectionLost(None))
    case (NativeMode, InboundEnded(text)) => Some(ConnectionLost(Some(text)))
    case (NativeMode, WriteFailed(text)) => Some(ConnectionLost(Some(text)))
    case (NativeMode, ReceiveFailed(text)) => Some(ConnectionLost(Some(text)))
    case (NativeMode, EncodeFailed(text)) => Some(Reported(text))
    case (NativeMode, Malformed(text)) => Some(Reported(text))
    case (_, StatusReport(ReportDisconnected, error)) => Some(ConnectionLost(error))
    case (_, StatusReport(ReportError, Some(text))) => Some(Reported(text))
    case (BrowserMode, StatusReport(ReportError, None)) => Some(Reported("Browser bridge reported an unknown error."))
    case (NativeMode, StatusReport(ReportError, None)) => Some(Reported("Native host reported an unknown error."))
    case _ => None
  }

  /** From w to v every parked request was failed with `failure`, its sender kept. */
  ghost predicate AllFailed(w: World, v: World, failure: Failure) {
    && v.bridge.pending == map[]
    && v.held == w.held + map id | id in w.bridge.pending :: Held(w.bridge.pending[id], Err(failure), FromDetach)
  }

  lemma DetachFails(w: World, c: ConnectionId, fault: bool, error: Option<string>)
    requires w.bridge.activeConnectionId == Some(c)
    ensures AllFailed(w, Detached(w, c, fault, error), if fault && error.Some? then Reported(error.value) else ConnectionLost(error))
  {
  }

  lemma MarkingSteps(mode: Mode, c: ConnectionId, e: Event)
    requires !e.Response?
    ensures Marking(mode, e).None? ==> Steps(mode, c, e) == [] || Steps(mode, c, e) == [Exit(c)]
    ensures Marking(mode, e).Some? ==>
      var steps := Steps(mode, c, e);
      && 1 <= |steps| <= 2 && steps[0].Detach? && steps[0].c == c && (|steps| == 2 ==> steps[1] == Exit(c))
      && Marking(mode, e).value ==
         (if steps[0].fault && steps[0].error.Some? then Reported(steps[0].error.value) else ConnectionLost(steps[0].error))
  {
  }

  /** The handler's steps on a response take its request out of `pending`, with the
      reply it says, to the sender parked there; if there is none they change nothing. */
  lemma ResponseServed(w: World, mode: Mode, c: ConnectionId, e: Event)
    requires e.Response? && Serving(w, c) && c !in w.handshaking
    ensures Valid(w, Steps(mode, c, e))
    ensures var v := Exec(w, Steps(mode, c, e));
            if e.id !in w.bridge.pending then v == w else
              && v.bridge == w.bridge.(pending := w.bridge.pending - {e.id})
              && e.id in v.held && v.held == w.held[e.id := v.held[e.id]]
              && v.held[e.id].sender == w.bridge.pending[e.id] && v.held[e.id].origin == Answer(c)
              && Says(mode, e.ok, e.payload, e.code, e.error, v.held[e.id].reply)
  {
    ExecOne(w, Steps(mode, c, e)[0]);
  }

  /** On any other event of the active connection they fail all that is parked, if the
      event marks the connection, and else leave it parked. */
  lemma EventServed(w: World, mode: Mode, c: ConnectionId, e: Event)
    requires !e.Response? && Serving(w, c) && w.bridge.activeConnectionId == Some(c)
    ensures Valid(w, Steps(mode, c, e))
    ensures var v := Exec(w, Steps(mode, c, e));
            match Marking(mode, e)
            case Some(failure) => AllFailed(w, v, failure)
            case None => v.bridge == w.bridge && v.held == w.held
  {
    var steps := Steps(mode, c, e);
    MarkingSteps(mode, c, e);
    if |steps| == 2 {
      DetachFails(w, c, steps[0].fault, steps[0].error);
      ExecTwo(w, steps[0], steps[1]);
      assert steps == [steps[0], steps[1]];
    } else if |steps| == 1 {
      if steps[0].Detach? {
        DetachFails(w, c, steps[0].fault, steps[0].error);
      }
      ExecOne(w, steps[0]);
      assert steps == [steps[0]];
    }
  }

  /** Serving one event on the active connection leaves the bridge attached to a
      dead connection if and only if the event escapes the browser loop. */
  lemma EventWedgesExactly(w: World, mode: Mode, c: ConnectionId, e: Event)
    requires Inv(w) && Serving(w, c) && w.bridge.activeConnectionId == Some(c) && Possible(w, c, e)
    ensures Valid(w, Steps(mode, c, e))
    ensures Wedged(Exec(w, Steps(mode, c, e))) <==> EscapesLoop(mode, e)
  {
    var steps := Steps(mode, c, e);
    if steps != [] && steps[0].Detach? {
      MarkThenExitIsClean(w, c, steps[0].fault, steps[0].error);
    } else if steps != [] {
      assert steps == [steps[0]] && c !in w.handshaking;
      ExecOne(w, steps[0]);
    }
  }

  /** The active connection's handler returns without having marked it. */
  predicate Wedges(w: World, s: Step) {
    s.Exit? && w.bridge.activeConnectionId == Some(s.c)
  }

  /** One step wedges the bridge exactly when the active connection's handler
      returns without a mark, and unwedges it exactly when a connection attaches. */
  lemma WedgedAfterStep(w: World, s: Step)
    requires Inv(w) && Enabled(w, s)
    ensures Wedged(Apply(w, s))
       <==> (Wedged(w) && !s.Join?) || Wedges(w, s)
  {
  }

  predicate HasJoin(run: seq<Step>) {
    exists i :: 0 <= i < |run| && run[i].Join?
  }

  lemma WedgedSubmitIsRefused(w: World, id: RequestId, payload: Json)
    requires Inv(w) && Wedged(w) && id in w.drawn
    ensures Submitted(w, id, payload).bridge == w.bridge
    ensures id in Submitted(w, id, payload).refused
  {
    assert Places(w, id) == Count(Issued(w, id));
    assert w.bridge.pending - {id} == w.bridge.pending;
  }

  lemma WedgedStep(w: World, s: Step)
    requires Inv(w) && Wedged(w) && Enabled(w, s) && !s.Join?
    ensures var v := Apply(w, s);
            && v.bridge.snapshot == w.bridge.snapshot
            && v.bridge.pending.Keys <= w.bridge.pending.Keys
            && v.refused == w.refused + (if s.Submit? then {s.id} else {})
            && v.drawn == (if s.Issue? then w.drawn + {w.nextRequest} else w.drawn) - (if s.Submit? then {s.id} else {})
  {
    if s.Submit? {
      WedgedSubmitIsRefused(w, s.id, s.payload);
    }
  }

  /** From w to v no connection attached and nothing was parked: the status is the
      same, and every request that took the lock was refused. */
  ghost predicate OnlyRefused(w: World, v: World) {
    && v.bridge.snapshot == w.bridge.snapshot
    && v.bridge.pending.Keys <= w.bridge.pending.Keys
    && w.refused <= v.refused && w.nextRequest <= v.nextRequest
    && (forall id: RequestId :: (id in w.drawn || w.nextRequest <= id < v.nextRequest) && id !in v.drawn
                                ==> id in v.refused)
  }

  lemma WedgedStepOnlyRefuses(w: World, s: Step)
    requires Inv(w) && Wedged(w) && Enabled(w, s) && !s.Join?
    ensures OnlyRefused(w, Apply(w, s))
  {
    WedgedStep(w, s);
  }

  lemma OnlyRefusedThrough(w: World, v: World, u: World)
    requires OnlyRefused(w, v) && OnlyRefused(v, u)
    ensures OnlyRefused(w, u)
  {
  }

  /** From a wedged bridge, until another connection attaches: the status still
      says attached, nothing new is parked, and every request that takes the lock
      is refused. */
  lemma {:induction false} WedgedUntilReattach(w: World, run: seq<Step>)
    requires Inv(w) && Wedged(w) && Valid(w, run) && !HasJoin(run)
    ensures Wedged(Exec(w, run)) && Exec(w, run).bridge.snapshot.status == Attached
    ensures OnlyRefused(w, Exec(w, run))
    decreases |run|
  {
    if run != [] {
      var s, next := run[0], Apply(w, run[0]);
      StepKeepsInv(w, s);
      WedgedAfterStep(w, s);
      WedgedStepOnlyRefuses(w, s);
      assert forall i | 0 <= i < |run[1..]| :: run[1..][i] == run[i + 1];
      WedgedUntilReattach(next, run[1..]);
      OnlyRefusedThrough(w, next, Exec(w, run));
    }
  }

  // ---------- being wedged, exactly ----------

  /** The state before step number k of a run. */
  ghost function At(w: World, run: seq<Step>, k: nat): World
    requires Valid(w, run) && k <= |run|
    decreases |run|
  {
    if k == 0 then w else At(Apply(w, run[0]), run[1..], k - 1)
  }

  ghost predicate WedgesAt(w: World, run: seq<Step>, k: nat)
    requires Valid(w, run) && k < |run|
  {
    Wedges(At(w, run, k), run[k]) && !HasJoin(run[k + 1..])
  }

  lemma JoinInTail(run: seq<Step>)
    requires run != []
    ensures HasJoin(run) <==> run[0].Join? || HasJoin(run[1..])
  {
    if HasJoin(run) && !run[0].Join? {
      var i :| 0 <= i < |run| && run[i].Join?;
      assert run[1..][i - 1].Join?;
    }
  }

  lemma WedgesAtTail(w: World, run: seq<Step>)
    requires Valid(w, run) && run != []
    ensures (exists k: nat :: k < |run| && WedgesAt(w, run, k))
       <==> WedgesAt(w, run, 0) || (exists k: nat :: k < |run[1..]| && WedgesAt(Apply(w, run[0]), run[1..], k))
  {
    var next, rest := Apply(w, run[0]), run[1..];
    forall k: nat | k < |rest| ensures WedgesAt(next, rest, k) <==> WedgesAt(w, run, k + 1) {
      assert rest[k] == run[k + 1] && rest[k + 1..] == run[k + 2..];
      assert At(next, rest, k) == At(w, run, k + 1);
    }
    if k: nat :| k < |run| && k > 0 && WedgesAt(w, run, k) {
      assert k - 1 < |rest| && WedgesAt(next, rest, k - 1);
    }
  }

  /** Over any run the bridge ends wedged if and only if it began so and nobody
      joined, or the active connection's handler returned without a mark at some
      point and nobody joined after that. */
  lemma {:induction false} WedgedExactly(w: World, run: seq<Step>)
    requires Inv(w) && Valid(w, run)
    ensures Wedged(Exec(w, run))
       <==> (Wedged(w) && !HasJoin(run)) || (exists k: nat :: k < |run| && WedgesAt(w, run, k))
    decreases |run|
  {
    if run != [] {
      StepKeepsInv(w, run[0]);
      WedgedAfterStep(w, run[0]);
      WedgedExactly(Apply(w, run[0]), run[1..]);
      WedgesAtTail(w, run);
      JoinInTail(run);
    }
  }

  lemma {:induction false} ExecThen(w: World, run: seq<Step>, s: Step)
    requires Valid(w, run) && Enabled(Exec(w, run), s)
    ensures Valid(w, run + [s]) && Exec(w, run + [s]) == Apply(Exec(w, run), s)
    decreases |run|
  {
    if run == [] {
      assert run + [s] == [s];
      ExecOne(w, s);
    } else {
      ExecThen(Apply(w, run[0]), run[1..], s);
      assert (run + [s])[1..] == run[1..] + [s];
    }
  }

  lemma ReachableThen(w: World, s: Step)
    requires Reachable(w) && Enabled(w, s)
    ensures Reachable(Apply(w, s))
  {
    var run :| Valid(START, run) && Exec(START, run) == w;
    ExecThen(START, run, s);
  }

  /** Connection 1 attached. */
  lemma FirstAttached() returns (w: World)
    ensures Reachable(w)
    ensures w.bridge == Attach(INITIAL, 1, "a", "t1") && w.nextRequest == 1 && w.nextConnection == 2
    ensures w.handshaking == {} && w.exited == {} && w.drawn == {}
  {
    assert Valid(START, []) && Exec(START, []) == START;
    ReachableThen(START, Accept);
    ReachableThen(Apply(START, Accept), Join(1, "a", "t1"));
    w := Apply(Apply(START, Accept), Join(1, "a", "t1"));
  }

  /** `complete_response` checks no connection id: here connection 1, replaced by
      connection 2, completes a request that was sent to connection 2. */
  lemma ReplacedConnectionCanAnswer()
    ensures exists w :: Reachable(w) && !T.Provenance(w)
  {
    var w2 := FirstAttached();
    ReachableThen(w2, Accept);
    var w3 := Apply(w2, Accept);
    ReachableThen(w3, Join(2, "b", "t2"));
    var w4 := Apply(w3, Join(2, "b", "t2"));
    ReachableThen(w4, Issue);
    var w5 := Apply(w4, Issue);
    ReachableThen(w5, Submit(1, "p"));
    var w6 := Apply(w5, Submit(1, "p"));
    var late := Respond(1, 1, Ok("late"));
    ReachableThen(w6, late);
    var w7 := Apply(w6, late);
    assert w7.routed[1] == 2 && w7.held[1].origin == Answer(1);
    assert !T.AnsweredBy(w7, 1, w7.held[1].origin);
  }

  /** One malformed message from the attached browser wedges the bridge, with a
      request parked that nobody will answer. */
  lemma MalformedMessageWedges(text: string)
    ensures exists w :: Reachable(w) && Wedged(w) && w.bridge.snapshot.status == Attached && 1 in w.bridge.pending
  {
    var w2 := FirstAttached();
    ReachableThen(w2, Issue);
    var w3 := Apply(w2, Issue);
    ReachableThen(w3, Submit(1, "p"));
    var w4 := Apply(w3, Submit(1, "p"));
    assert Steps(BrowserMode, 1, Malformed(text)) == [Exit(1)];
    ReachableThen(w4, Exit(1));
    var w5 := Apply(w4, Exit(1));
    assert Wedged(w5) && 1 in w5.bridge.pending;
  }
}
