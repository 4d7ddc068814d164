/** What holds of the bridge after any run: conservation of reply slots, who may
    answer whom, and what a stale event changes. */
module BridgeTheorems {
  import opened Wrappers
  import opened B = BridgeState
  import opened R = BridgeRuns

  lemma {:induction false} RunKeepsInv(w: World, run: seq<Step>)
    requires Inv(w) && Valid(w, run)
    ensures Inv(Exec(w, run))
    decreases |run|
  {
    if run != [] {
      StepKeepsInv(w, run[0]);
      RunKeepsInv(Apply(w, run[0]), run[1..]);
    }
  }

  lemma StartInv()
    ensures Inv(START)
  {
    forall id: RequestId ensures Places(START, id) == Count(Issued(START, id)) {
    }
  }

  lemma ReachableInv(run: seq<Step>)
    requires Valid(START, run)
    ensures Inv(Exec(START, run))
  {
    StartInv();
    RunKeepsInv(START, run);
  }

  /** In every reachable state the transport, the active connection, the attached
      status and the connection time come and go together, nothing is parked without
      them, and the second guard of `enqueue_request` does not fire. */
  lemma ReachableStatesAreCoupled(run: seq<Step>, receiverAlive: bool)
    requires Valid(START, run)
    ensures Coupled(Exec(START, run).bridge)
    ensures Admit(Exec(START, run).bridge, receiverAlive) != StatusNotAttached
  {
    ReachableInv(run);
    SecondGuardNeverFires(Exec(START, run).bridge, receiverAlive);
  }

  // ---------- conservation and at-most-once delivery ----------

  /** After any run an issued id is in exactly one place, an id never issued in
      none, and no reply slot ever received two results. */
  lemma EachRequestInOnePlace(run: seq<Step>, id: RequestId)
    requires Valid(START, run)
    ensures var w := Exec(START, run);
            Places(w, id) == (if 1 <= id < w.nextRequest then 1 else 0) && |Slot(w.sends, id)| <= 1
  {
    ReachableInv(run);
    assert Places(Exec(START, run), id) == Count(Issued(Exec(START, run), id));
  }

  lemma {:induction false} SlotHasSend(sends: seq<Delivery>, caller: RequestId)
    requires Slot(sends, caller) != []
    ensures exists i :: 0 <= i < |sends| && sends[i].caller == caller && sends[i].reply == Slot(sends, caller)[0]
    decreases |sends|
  {
    var last := |sends| - 1;
    if Slot(sends[..last], caller) != [] {
      SlotHasSend(sends[..last], caller);
      var i :| 0 <= i < last && sends[..last][i].caller == caller && sends[..last][i].reply == Slot(sends[..last], caller)[0];
      assert sends[i].caller == caller;
    } else {
      assert sends[last].caller == caller;
    }
  }

  /** A caller that got a reply got the one sent for its own request, and a caller
      still waiting has its sender in `pending`, in a batch, or used: the branch
      for a sender dropped without a send is dead. */
  lemma CallersGetTheirOwnReply(run: seq<Step>, id: RequestId)
    requires Valid(START, run)
    ensures var w := Exec(START, run);
            && (id in w.returned && w.returned[id].GotReply? ==>
                  exists i :: 0 <= i < |w.sends| && w.sends[i].request == id && w.sends[i].reply == w.returned[id].reply)
            && (id in w.awaiting ==>
                  (id in w.bridge.pending && w.bridge.pending[id] == Sender(id))
                  || (id in w.held && w.held[id].sender == Sender(id))
                  || Enabled(w, Wake(id)))
  {
    ReachableInv(run);
    var w := Exec(START, run);
    if id in w.returned && w.returned[id].GotReply? {
      assert Slot(w.sends, id) == [w.returned[id].reply];
      SlotHasSend(w.sends, id);
    }
  }

  ghost predicate Grows(w: World, v: World) {
    && w.sends <= v.sends
    && (forall id | id in w.returned :: id in v.returned && v.returned[id] == w.returned[id])
    && (forall id | id in w.routed :: id in v.routed && v.routed[id] == w.routed[id])
    && (forall id | id in w.routed && id in w.payloads :: id in v.payloads && v.payloads[id] == w.payloads[id])
  }

  lemma StepGrows(w: World, s: Step)
    requires Routed(w) && Callers(w) && Enabled(w, s)
    ensures Grows(w, Apply(w, s))
  {
    if IsConnectionStep(s) {
      ConnectionStepGrows(w, s);
    }
  }

  lemma ConnectionStepGrows(w: World, s: Step)
    requires Enabled(w, s) && IsConnectionStep(s)
    ensures Grows(w, Apply(w, s))
  {
  }

  /** Results, sends and routes are never taken back. */
  lemma {:induction false} HistoryOnlyGrows(w: World, run: seq<Step>)
    requires Inv(w) && Valid(w, run)
    ensures Grows(w, Exec(w, run))
    decreases |run|
  {
    if run != [] {
      var next := Apply(w, run[0]);
      StepKeepsInv(w, run[0]);
      StepGrows(w, run[0]);
      HistoryOnlyGrows(next, run[1..]);
    }
  }

  /** A parked request, timed out or not, leaves `pending` exactly when it is
      answered, when a connection attaches, or when the active connection is marked. */
  lemma ParkedUntilAnsweredOrDetached(w: World, s: Step, id: RequestId)
    requires Inv(w) && Enabled(w, s) && id in w.bridge.pending
    ensures id in Apply(w, s).bridge.pending
       <==> !(s.Join? || (s.Respond? && s.id == id) || (s.Detach? && w.bridge.activeConnectionId == Some(s.c)))
  {
    assert Places(w, id) == Count(Issued(w, id));
  }

  // ---------- provenance ----------

  /** A response whose id is parked comes from the active connection. This is the
      check `complete_response` does not make. */
  ghost predicate Guarded(w: World, s: Step) {
    s.Respond? && s.id in w.bridge.pending ==> w.bridge.activeConnectionId == Some(s.c)
  }

  /** The connection answers an id that was sent to it. */
  ghost predicate Disciplined(w: World, s: Step) {
    s.Respond? ==> s.id in w.routed && w.routed[s.id] == s.c
  }

  ghost predicate GuardedRun(w: World, run: seq<Step>)
    requires Valid(w, run)
    decreases |run|
  {
    run == [] || (Guarded(w, run[0]) && GuardedRun(Apply(w, run[0]), run[1..]))
  }

  ghost predicate DisciplinedRun(w: World, run: seq<Step>)
    requires Valid(w, run)
    decreases |run|
  {
    run == [] || (Disciplined(w, run[0]) && DisciplinedRun(Apply(w, run[0]), run[1..]))
  }

  ghost predicate AnsweredBy(w: World, request: RequestId, origin: Origin) {
    origin.Answer? ==> request in w.routed && w.routed[request] == origin.connection
  }

  /** Every answer, sent or about to be sent, came from the connection its request went to. */
  ghost predicate Provenance(w: World) {
    && (forall id | id in w.held :: AnsweredBy(w, id, w.held[id].origin))
    && (forall i | 0 <= i < |w.sends| :: AnsweredBy(w, w.sends[i].request, w.sends[i].origin))
  }

  /** A late response, from a connection that is no longer active, to an id it was
      given changes nothing at all. */
  lemma LateResponseIsInert(w: World, c: ConnectionId, id: RequestId, reply: Reply)
    requires Inv(w) && Enabled(w, Respond(c, id, reply))
    requires Disciplined(w, Respond(c, id, reply)) && w.bridge.activeConnectionId != Some(c)
    ensures Apply(w, Respond(c, id, reply)) == w
  {
    assert id !in w.bridge.pending;
  }

  lemma SendKeepsProvenance(w: World, id: RequestId)
    requires id in w.held
    ensures Provenance(Sent(w, id)) <==> Provenance(w)
  {
    var v := Sent(w, id);
    if Provenance(v) {
      assert AnsweredBy(v, v.sends[|w.sends|].request, v.sends[|w.sends|].origin);
      forall k | k in w.held ensures AnsweredBy(w, k, w.held[k].origin) {
        if k != id { assert k in v.held; }
      }
      forall i | 0 <= i < |w.sends| ensures AnsweredBy(w, w.sends[i].request, w.sends[i].origin) {
        assert v.sends[i] == w.sends[i];
      }
    }
  }

  lemma SubmitKeepsProvenance(w: World, id: RequestId, payload: Json)
    requires Routed(w) && id in w.drawn
    ensures Provenance(Submitted(w, id, payload)) <==> Provenance(w)
  {
    var v := Submitted(w, id, payload);
    assert id !in w.routed;
    assert forall k | k in w.routed :: k in v.routed && v.routed[k] == w.routed[k];
    assert v.held == w.held && v.sends == w.sends;
  }

  lemma BatchKeepsProvenance(w: World, v: World, batch: map<RequestId, Sender>, failure: Failure, origin: Origin)
    requires batch.Keys !! w.held.Keys && !origin.Answer?
    requires v.held == w.held + HoldAll(batch, failure, origin) && v.sends == w.sends && v.routed == w.routed
    ensures Provenance(v) <==> Provenance(w)
  {
    assert forall id | id in w.held :: id in v.held && v.held[id] == w.held[id];
  }

  lemma JoinKeepsProvenance(w: World, c: ConnectionId, browser: string, now: string)
    requires Conserved(w)
    ensures Provenance(Joined(w, c, browser, now)) <==> Provenance(w)
  {
    PendingAndHeldAreDisjoint(w);
    BatchKeepsProvenance(w, Joined(w, c, browser, now), w.bridge.pending, ConnectionReplaced, FromReplacement);
  }

  lemma DetachKeepsProvenance(w: World, c: ConnectionId, fault: bool, error: Option<string>)
    requires Conserved(w)
    ensures Provenance(Detached(w, c, fault, error)) <==> Provenance(w)
  {
    PendingAndHeldAreDisjoint(w);
    var batch := MarkedBatch(w.bridge, c, if fault then Error else Disconnected);
    BatchKeepsProvenance(w, Detached(w, c, fault, error), if batch.Some? then batch.value else map[],
      if fault && error.Some? then Reported(error.value) else ConnectionLost(error), FromDetach);
  }

  lemma RespondKeepsProvenance(w: World, c: ConnectionId, id: RequestId, reply: Reply)
    requires Conserved(w) && Routed(w)
    ensures Provenance(Responded(w, c, id, reply))
       <==> Provenance(w) && Guarded(w, Respond(c, id, reply))
  {
    var v := Responded(w, c, id, reply);
    if id in w.bridge.pending {
      assert Places(w, id) == Count(Issued(w, id));
      assert w.bridge.activeConnectionId == Some(w.routed[id]);
      assert AnsweredBy(v, id, v.held[id].origin) <==> w.routed[id] == c;
      assert forall k | k in w.held :: k in v.held && v.held[k] == w.held[k];
    }
  }

  lemma StepKeepsProvenance(w: World, s: Step)
    requires Conserved(w) && Routed(w) && Enabled(w, s)
    ensures Provenance(Apply(w, s)) <==> Provenance(w) && Guarded(w, s)
  {
    match s
    case Send(id) => SendKeepsProvenance(w, id);
    case Submit(id, payload) => SubmitKeepsProvenance(w, id, payload);
    case Respond(c, id, reply) => RespondKeepsProvenance(w, c, id, reply);
    case Join(c, browser, now) => JoinKeepsProvenance(w, c, browser, now);
    case Detach(c, fault, error) => DetachKeepsProvenance(w, c, fault, error);
    case _ => BatchKeepsProvenance(w, Apply(w, s), map[], MissingPayload, FromDetach);
  }

  /** Over any run, answers keep to the connection their request went to if and
      only if each response to a parked id came from the connection active then. */
  lemma {:induction false} ProvenanceExactly(w: World, run: seq<Step>)
    requires Inv(w) && Valid(w, run)
    ensures Provenance(Exec(w, run)) <==> Provenance(w) && GuardedRun(w, run)
    decreases |run|
  {
    if run != [] {
      StepKeepsInv(w, run[0]);
      StepKeepsProvenance(w, run[0]);
      ProvenanceExactly(Apply(w, run[0]), run[1..]);
    }
  }

  /** If each connection answers only ids it was given, the missing check is never missed. */
  lemma {:induction false} DisciplineSuffices(w: World, run: seq<Step>)
    requires Inv(w) && Valid(w, run) && DisciplinedRun(w, run) && Provenance(w)
    ensures GuardedRun(w, run) && Provenance(Exec(w, run))
    decreases |run|
  {
    if run != [] {
      var s := run[0];
      assert Guarded(w, s);
      StepKeepsInv(w, s);
      StepKeepsProvenance(w, s);
      DisciplineSuffices(Apply(w, s), run[1..]);
    }
  }

  // ---------- stale events ----------

  predicate Stale(w: World, s: Step) {
    s.Detach? && w.bridge.activeConnectionId != Some(s.c)
  }

  ghost function EraseStale(w: World, run: seq<Step>): seq<Step>
    requires Valid(w, run)
    decreases |run|
  {
    if run == [] then [] else
      var rest := EraseStale(Apply(w, run[0]), run[1..]);
      if Stale(w, run[0]) then rest else [run[0]] + rest
  }

  /** Error and disconnect events of connections that are not active at that moment
      can be erased from any run without changing where it ends. */
  lemma {:induction false} StaleEventsCanBeErased(w: World, run: seq<Step>)
    requires Valid(w, run)
    ensures Valid(w, EraseStale(w, run))
    ensures Exec(w, EraseStale(w, run)) == Exec(w, run)
    decreases |run|
  {
    if run != [] {
      var s, next := run[0], Apply(w, run[0]);
      StaleEventsCanBeErased(next, run[1..]);
      if Stale(w, s) {
        assert next.held == w.held;
        assert next == w;
      } else {
        assert EraseStale(w, run)[1..] == EraseStale(next, run[1..]);
      }
    }
  }
}
