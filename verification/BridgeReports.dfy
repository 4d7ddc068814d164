/** What the bridge tells its callers and the status file: the published snapshot, why
    a request was refused, and which step gave each caller its reply. */
module BridgeReports {
  import opened Wrappers
  import opened B = BridgeState
  import opened R = BridgeRuns
  import opened T = BridgeTheorems

  /** The published snapshot after a step: a connection that attaches is named, with
      its time and no error; a mark of the active connection leaves its name, drops the
      time and gives the status and the error; nothing else changes it. */
  lemma SnapshotAfterStep(w: World, s: Step)
    requires Enabled(w, s)
    ensures var (was, now) := (w.bridge.snapshot, Apply(w, s).bridge.snapshot);
            match s
            case Join(_, browser, time) => now == Snapshot(Attached, Some(browser), Some(time), None)
            case Detach(c, fault, error) =>
              now == if w.bridge.activeConnectionId == Some(c)
                     then Snapshot(if fault then Error else Disconnected, was.browser, None, error) else was
            case _ => now == was
  {
  }

  /** The last connection to attach in a run, with the name and time it gave. */
  function LastJoin(run: seq<Step>): Option<Step>
    decreases |run|
  {
    if run == [] then None
    else if LastJoin(run[1..]).Some? then LastJoin(run[1..])
    else if run[0].Join? then Some(run[0]) else None
  }

  /** The snapshot shows this connection's name, and, while it is active, its time and no error. */
  ghost predicate Shows(v: World, join: Step)
    requires join.Join?
  {
    && v.bridge.snapshot.browser == Some(join.browser)
    && (v.bridge.activeConnectionId.Some? ==>
          v.bridge.activeConnectionId == Some(join.c)
          && v.bridge.snapshot == Snapshot(Attached, Some(join.browser), Some(join.now), None))
  }

  lemma ShowsStep(w: World, s: Step, join: Step)
    requires join.Join? && Enabled(w, s) && (if s.Join? then join == s else Shows(w, join))
    ensures Shows(Apply(w, s), join)
  {
    SnapshotAfterStep(w, s);
  }

  lemma {:induction false} LastJoinIsJoin(run: seq<Step>)
    ensures LastJoin(run).Some? ==> LastJoin(run).value.Join?
    decreases |run|
  {
    if run != [] {
      LastJoinIsJoin(run[1..]);
    }
  }

  lemma {:induction false} ShowsThrough(w: World, run: seq<Step>, join: Step)
    requires join.Join? && Valid(w, run)
    requires LastJoin(run).Some? || Shows(w, join)
    ensures LastJoin(run).Some? ==> LastJoin(run).value.Join? && Shows(Exec(w, run), LastJoin(run).value)
    ensures LastJoin(run).None? ==> Shows(Exec(w, run), join)
    decreases |run|
  {
    if run != [] {
      LastJoinIsJoin(run);
      var next := Apply(w, run[0]);
      if run[0].Join? {
        ShowsStep(w, run[0], run[0]);
        ShowsThrough(next, run[1..], run[0]);
      } else {
        if LastJoin(run[1..]).None? {
          ShowsStep(w, run[0], join);
        }
        ShowsThrough(next, run[1..], join);
      }
    }
  }

  lemma {:induction false} UntouchedUntilJoin(w: World, run: seq<Step>)
    requires Valid(w, run) && w.bridge.activeConnectionId.None? && LastJoin(run).None?
    ensures Exec(w, run).bridge.snapshot == w.bridge.snapshot
    decreases |run|
  {
    if run != [] {
      SnapshotAfterStep(w, run[0]);
      assert Apply(w, run[0]).bridge.activeConnectionId.None?;
      UntouchedUntilJoin(Apply(w, run[0]), run[1..]);
    }
  }

  /** Over any run: before any connection attaches the snapshot is waiting, with nothing
      named. */
  lemma WaitingUntilTheFirstAttaches(run: seq<Step>)
    requires Valid(START, run) && LastJoin(run).None?
    ensures Exec(START, run).bridge.snapshot == Snapshot(Waiting, None, None, None)
  {
    UntouchedUntilJoin(START, run);
  }

  /** Over any run: once a connection has attached, the snapshot names the last one to
      attach, and while a connection is active it is that one, shown as attached with
      the time it attached and no error. */
  lemma SnapshotNamesTheLastToAttach(run: seq<Step>)
    requires Valid(START, run) && LastJoin(run).Some?
    ensures LastJoin(run).value.Join? && Shows(Exec(START, run), LastJoin(run).value)
  {
    LastJoinIsJoin(run);
    ShowsThrough(START, run, LastJoin(run).value);
  }

  /** The step gives request `id` this reply: a response for it its content, a new
      connection the failure of replacement, a mark its own error. */
  predicate Explains(s: Step, id: RequestId, reply: Reply) {
    match s
    case Respond(_, answered, content) => answered == id && reply == content
    case Join(_, _, _) => reply == Err(ConnectionReplaced)
    case Detach(_, fault, error) =>
      reply == Err(if fault && error.Some? then Reported(error.value) else ConnectionLost(error))
    case _ => false
  }

  ghost predicate Explained(run: seq<Step>, id: RequestId, reply: Reply) {
    exists k :: 0 <= k < |run| && Explains(run[k], id, reply)
  }

  ghost predicate NewlyHeld(w: World, v: World, id: RequestId) {
    id in v.held && !(id in w.held && v.held[id] == w.held[id])
  }

  /** A step holds a sender with a new reply only if it took it out of `pending` and
      explains the reply. */
  lemma NewlyHeldAreExplained(w: World, s: Step)
    requires Enabled(w, s) && w.bridge.pending.Keys !! w.held.Keys
    ensures forall id | NewlyHeld(w, Apply(w, s), id) ::
              id in w.bridge.pending && Apply(w, s).held[id].sender == w.bridge.pending[id]
              && Explains(s, id, Apply(w, s).held[id].reply)
  {
  }

  lemma OthersKeepPending(w: World, s: Step)
    requires Enabled(w, s) && !s.Submit? && !IsConnectionStep(s)
    ensures Apply(w, s).bridge == w.bridge
  {
  }

  lemma ShiftedAreHeld(w: World, v: World, id: RequestId)
    requires Shifts(w, v) && id in w.bridge.pending && id !in v.bridge.pending
    ensures id in v.held
  {
  }

  lemma SubmitKeepsParked(w: World, id: RequestId, payload: Json, parked: RequestId)
    requires parked in w.bridge.pending && parked != id
    ensures parked in Submitted(w, id, payload).bridge.pending
  {
  }

  /** Whatever leaves `pending` is held with a reply. */
  lemma LeaversAreHeld(w: World, s: Step, id: RequestId)
    requires Inv(w) && Enabled(w, s) && id in w.bridge.pending && id !in Apply(w, s).bridge.pending
    ensures id in Apply(w, s).held
  {
    if s.Submit? {
      DrawnIsNowhereElse(w, s.id);
      SubmitKeepsParked(w, s.id, s.payload, id);
    } else if IsConnectionStep(s) {
      PendingAndHeldAreDisjoint(w);
      ConnectionStepShifts(w, s);
      ShiftedAreHeld(w, Apply(w, s), id);
    } else {
      OthersKeepPending(w, s);
    }
  }

  lemma SendsAreHeld(w: World, s: Step)
    requires Enabled(w, s)
    ensures var v := Apply(w, s);
            v.sends == w.sends
            || (exists id :: id in w.held && v.sends == w.sends + [Delivery(id, w.held[id].sender.caller, w.held[id].reply, w.held[id].origin)])
  {
    if s.Send? {
      assert s.id in w.held;
    }
  }

  ghost predicate AllExplained(run: seq<Step>, w: World) {
    && (forall id | id in w.held :: Explained(run, id, w.held[id].reply))
    && (forall i | 0 <= i < |w.sends| :: Explained(run, w.sends[i].request, w.sends[i].reply))
  }

  lemma ExplainedMore(run: seq<Step>, s: Step, id: RequestId, reply: Reply)
    requires Explained(run, id, reply) || Explains(s, id, reply)
    ensures Explained(run + [s], id, reply)
  {
    if Explained(run, id, reply) {
      var k :| 0 <= k < |run| && Explains(run[k], id, reply);
      assert (run + [s])[k] == run[k];
    } else {
      assert (run + [s])[|run|] == s;
    }
  }

  lemma ExplainedStep(run: seq<Step>, w: World, s: Step)
    requires Inv(w) && Enabled(w, s) && AllExplained(run, w)
    ensures AllExplained(run + [s], Apply(w, s))
  {
    var v := Apply(w, s);
    PendingAndHeldAreDisjoint(w);
    NewlyHeldAreExplained(w, s);
    SendsAreHeld(w, s);
    forall id | id in v.held ensures Explained(run + [s], id, v.held[id].reply) {
      assert NewlyHeld(w, v, id) || v.held[id] == w.held[id];
      ExplainedMore(run, s, id, v.held[id].reply);
    }
    forall i | 0 <= i < |v.sends| ensures Explained(run + [s], v.sends[i].request, v.sends[i].reply) {
      ExplainedMore(run, s, v.sends[i].request, v.sends[i].reply);
    }
  }

  lemma {:induction false} ExplainedThrough(done: seq<Step>, w: World, run: seq<Step>)
    requires Inv(w) && Valid(w, run) && AllExplained(done, w)
    ensures AllExplained(done + run, Exec(w, run))
    decreases |run|
  {
    if run == [] {
      assert done + run == done;
    } else {
      StepKeepsInv(w, run[0]);
      ExplainedStep(done, w, run[0]);
      ExplainedThrough(done + [run[0]], Apply(w, run[0]), run[1..]);
      assert done + [run[0]] + run[1..] == done + run;
    }
  }

  /** Whatever a caller gets back was given to its own request by some step of the run:
      it is the content of a response for that id, the failure of replacement when a
      connection attached, or the error with which one was marked. */
  lemma EveryReplyIsExplained(run: seq<Step>, id: RequestId)
    requires Valid(START, run)
    requires id in Exec(START, run).returned && Exec(START, run).returned[id].GotReply?
    ensures Explained(run, id, Exec(START, run).returned[id].reply)
  {
    StartInv();
    ExplainedThrough([], START, run);
    assert [] + run == run;
    CallersGetTheirOwnReply(run, id);
  }

  /** A request is refused exactly when no transport is attached, with the status then
      shown, or its handler is gone, with the status "disconnected"; otherwise it is
      parked, for its own caller. */
  lemma RefusalNamesTheStatus(w: World, id: RequestId, payload: Json)
    requires Inv(w) && id in w.drawn
    ensures var v := Apply(w, Submit(id, payload));
            match w.bridge.transport
            case None => v.returned == w.returned[id := Refused(NotAttached(w.bridge.snapshot.status))]
            case Some(c) =>
              if c in w.exited then v.returned == w.returned[id := Refused(NotAttached(Disconnected))]
              else v.returned == w.returned && v.bridge.pending == w.bridge.pending[id := Sender(id)]
                   && v.routed == w.routed[id := c] && v.payloads == w.payloads[id := payload]
  {
  }
}
