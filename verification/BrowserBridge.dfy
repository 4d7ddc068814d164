/** The daemon's bridge object. Every method is one locked section, followed by
    the sends the source does after the lock is released. */
module BrowserBridge {
  import opened Wrappers
  import B = BridgeState

  datatype SlotSend = SlotSend(request: B.RequestId, caller: B.RequestId, reply: B.Reply)

  /** `sent` holds one delivery of `reply` for every sender of the batch and nothing else. */
  ghost predicate Drains(sent: seq<SlotSend>, batch: map<B.RequestId, B.Sender>, reply: B.Reply) {
    && |sent| == |batch|
    && (forall i | 0 <= i < |sent| ::
          && sent[i].request in batch
          && sent[i] == SlotSend(sent[i].request, batch[sent[i].request].caller, reply))
    && (forall i, j | 0 <= i < j < |sent| :: sent[i].request != sent[j].request)
  }

  method FailPending(batch: map<B.RequestId, B.Sender>, failure: B.Failure) returns (sent: seq<SlotSend>)
    ensures Drains(sent, batch, Err(failure))
  {
    sent := [];
    var left := batch;
    while left != map[]
      invariant left.Keys <= batch.Keys && forall id | id in left :: left[id] == batch[id]
      invariant |sent| + |left| == |batch|
      invariant forall i | 0 <= i < |sent| ::
                  && sent[i].request in batch && sent[i].request !in left
                  && sent[i] == SlotSend(sent[i].request, batch[sent[i].request].caller, Err(failure))
      invariant forall i, j | 0 <= i < j < |sent| :: sent[i].request != sent[j].request
      decreases |left|
    {
      var id :| id in left;
      sent := sent + [SlotSend(id, left[id].caller, Err(failure))];
      assert (left - {id}).Keys == left.Keys - {id};
      assert |left - {id}| == |left| - 1;
      left := left - {id};
    }
  }

  class Bridge {
    var snapshot: B.Snapshot
    var transport: Option<B.ConnectionId>
    var activeConnectionId: Option<B.ConnectionId>
    var pending: map<B.RequestId, B.Sender>

    ghost function View(): B.State
      reads this
    {
      B.State(snapshot, transport, activeConnectionId, pending)
    }

    constructor ()
      ensures View() == B.INITIAL
    {
      snapshot := B.Snapshot(B.Waiting, None, None, None);
      transport, activeConnectionId, pending := None, None, map[];
    }

    method Attach(connection: B.ConnectionId, browser: string, now: string) returns (sent: seq<SlotSend>)
      modifies this
      ensures View() == B.Attach(old(View()), connection, browser, now)
      ensures Drains(sent, old(pending), Err(B.ConnectionReplaced))
    {
      var stale := pending;
      pending := map[];
      transport := Some(connection);
      activeConnectionId := Some(connection);
      snapshot := snapshot.(status := B.Attached);
      snapshot := snapshot.(browser := Some(browser));
      snapshot := snapshot.(connectedAt := Some(now));
      snapshot := snapshot.(lastError := None);
      sent := FailPending(stale, B.ConnectionReplaced);
    }

    method CompleteResponse(request: B.RequestId, reply: B.Reply) returns (sent: seq<SlotSend>)
      modifies this
      ensures View() == B.Complete(old(View()), request)
      ensures sent == if request in old(pending)
                      then [SlotSend(request, old(pending)[request].caller, reply)] else []
    {
      sent := [];
      if request in pending {
        var sender := pending[request];
        pending := pending - {request};
        sent := [SlotSend(request, sender.caller, reply)];
      }
    }

    method MarkStatus(connection: B.ConnectionId, status: B.Status, error: Option<string>)
      returns (batch: Option<map<B.RequestId, B.Sender>>)
      modifies this
      ensures View() == B.MarkStatus(old(View()), connection, status, error)
      ensures batch == B.MarkedBatch(old(View()), connection, status)
    {
      if activeConnectionId != Some(connection) {
        return None;
      }
      var taken := map[];
      if status == B.Disconnected || status == B.Error {
        transport := None;
        activeConnectionId := None;
        taken := pending;
        pending := map[];
      }
      snapshot := snapshot.(status := status);
      snapshot := snapshot.(connectedAt := if status == B.Attached then snapshot.connectedAt else None);
      snapshot := snapshot.(lastError := error);
      batch := Some(taken);
    }

    method MarkError(connection: B.ConnectionId, error: string) returns (sent: seq<SlotSend>)
      modifies this
      ensures View() == B.MarkStatus(old(View()), connection, B.Error, Some(error))
      ensures if old(activeConnectionId) == Some(connection)
              then Drains(sent, old(pending), Err(B.Reported(error))) else sent == []
    {
      sent := [];
      var batch := MarkStatus(connection, B.Error, Some(error));
      if batch.Some? {
        sent := FailPending(batch.value, B.Reported(error));
      }
    }

    method MarkDisconnected(connection: B.ConnectionId, error: Option<string>) returns (sent: seq<SlotSend>)
      modifies this
      ensures View() == B.MarkStatus(old(View()), connection, B.Disconnected, error)
      ensures if old(activeConnectionId) == Some(connection)
              then Drains(sent, old(pending), Err(B.ConnectionLost(error))) else sent == []
    {
      sent := [];
      var batch := MarkStatus(connection, B.Disconnected, error);
      if batch.Some? {
        sent := FailPending(batch.value, B.ConnectionLost(error));
      }
    }

    // The locked section of `enqueue_request`. `receiverAlive` is the outcome of
    // the channel send: it fails when the handler owning the receiver is gone.
    method EnqueueRequest(request: B.RequestId, receiverAlive: bool)
      returns (outcome: Result<B.ConnectionId, B.Failure>)
      modifies this
      ensures View() == B.Enqueue(old(View()), request, receiverAlive)
      ensures outcome ==
        match B.Admit(old(View()), receiverAlive)
        case Parked => Ok(old(transport).value)
        case SendFailed => Err(B.NotAttached(B.Disconnected))
        case _ => Err(B.NotAttached(old(snapshot).status))
    {
      if transport.None? {
        return Err(B.NotAttached(snapshot.status));
      }
      if snapshot.status != B.Attached {
        return Err(B.NotAttached(snapshot.status));
      }
      pending := pending[request := B.Sender(request)];
      if !receiverAlive {
        pending := pending - {request};
        assert pending == old(pending) - {request};
        return Err(B.NotAttached(B.Disconnected));
      }
      outcome := Ok(transport.value);
    }
  }
}
