/** The two loops that serve a connection, as methods on the bridge object: where they
    stop, how they leave the bridge, and every reply they send. Callers park requests
    between the events of the connection. */
module HandlerLoops {
  import opened Wrappers
  import opened B = BridgeState
  import opened H = ConnectionHandlers
  import BB = BrowserBridge

  // One turn of the loop's world: a caller's request is admitted and written out, or
  // the connection has an event.
  datatype Turn = Requested(id: RequestId) | Handled(event: Event)

  predicate Marks(mode: Mode, t: Turn) {
    t.Handled? && Marking(mode, t.event).Some?
  }

  predicate Escapes(mode: Mode, t: Turn) {
    t.Handled? && EscapesLoop(mode, t.event)
  }

  /** No turn so far has marked the connection. */
  predicate StillAttached(mode: Mode, turns: seq<Turn>, i: nat)
    requires i <= |turns|
  {
    forall j | 0 <= j < i :: !Marks(mode, turns[j])
  }

  /** What one turn makes of the parked requests, and what it sends: a request is parked
      for its caller while the connection is attached; a response is sent to the caller
      parked under its id, if there is one; a mark fails all that is parked. */
  ghost predicate TurnServed(mode: Mode, t: Turn, attached: bool, parked: map<RequestId, Sender>,
                             left: map<RequestId, Sender>, sent: seq<BB.SlotSend>)
  {
    match t
    case Requested(id) => left == (if attached then parked[id := Sender(id)] else parked) && sent == []
    case Handled(Response(id, ok, payload, code, error)) =>
      && left == parked - {id}
      && (id !in parked ==> sent == [])
      && (id in parked ==>
            |sent| == 1 && sent[0].request == id && sent[0].caller == parked[id].caller
            && Says(mode, ok, payload, code, error, sent[0].reply))
    case Handled(e) =>
      match Marking(mode, e)
      case Some(failure) => left == map[] && BB.Drains(sent, parked, Err(failure))
      case None => left == parked && sent == []
  }

  /** The turns served, one after the other, from nothing parked. */
  ghost predicate Trace(mode: Mode, turns: seq<Turn>, served: nat, parked: seq<map<RequestId, Sender>>, sent: seq<seq<BB.SlotSend>>)
    requires served <= |turns|
  {
    && |parked| == served + 1 && |sent| == served && parked[0] == map[]
    && forall i | 0 <= i < served ::
         TurnServed(mode, turns[i], StillAttached(mode, turns, i), parked[i], parked[i + 1], sent[i])
  }

  lemma TraceMore(mode: Mode, turns: seq<Turn>, served: nat, parked: seq<map<RequestId, Sender>>, sent: seq<seq<BB.SlotSend>>,
                  left: map<RequestId, Sender>, now: seq<BB.SlotSend>)
    requires served < |turns| && Trace(mode, turns, served, parked, sent)
    requires TurnServed(mode, turns[served], StillAttached(mode, turns, served), parked[served], left, now)
    ensures Trace(mode, turns, served + 1, parked + [left], sent + [now])
  {
  }

  /** The connection is active or no connection is, and what is parked is this. */
  ghost predicate Holds(bridge: BB.Bridge, c: ConnectionId, attached: bool)
    reads bridge
  {
    Coupled(bridge.View()) && bridge.activeConnectionId == if attached then Some(c) else None
  }

  method ParkRequest(bridge: BB.Bridge, c: ConnectionId, id: RequestId, ghost attached: bool)
    requires Holds(bridge, c, attached)
    modifies bridge
    ensures Holds(bridge, c, attached)
    ensures bridge.pending == if attached then old(bridge.pending)[id := Sender(id)] else old(bridge.pending)
  {
    var admitted := bridge.EnqueueRequest(id, true);
  }

  method AnswerRequest(bridge: BB.Bridge, c: ConnectionId, mode: Mode, e: Event, ghost attached: bool) returns (sent: seq<BB.SlotSend>)
    requires e.Response? && Holds(bridge, c, attached)
    modifies bridge
    ensures Holds(bridge, c, attached)
    ensures TurnServed(mode, Handled(e), attached, old(bridge.pending), bridge.pending, sent)
  {
    if e.ok {
      if e.payload.Some? {
        sent := bridge.CompleteResponse(e.id, Ok(e.payload.value));
      } else if mode == NativeMode {
        sent := bridge.CompleteResponse(e.id, Ok("null"));
      } else {
        sent := bridge.CompleteResponse(e.id, Err(MissingPayload));
      }
    } else {
      sent := bridge.CompleteResponse(e.id, Err(Remote(e.code, e.error)));
    }
  }

  datatype LoopEnd = StillServing | Left | Escaped

  method BrowserTurn(bridge: BB.Bridge, c: ConnectionId, e: Event, ghost attached: bool) returns (end: LoopEnd, sent: seq<BB.SlotSend>)
    requires Holds(bridge, c, attached)
    modifies bridge
    ensures Holds(bridge, c, attached && Marking(BrowserMode, e).None?)
    ensures TurnServed(BrowserMode, Handled(e), attached, old(bridge.pending), bridge.pending, sent)
    ensures end == Escaped <==> EscapesLoop(BrowserMode, e)
    ensures end == Left <==> e.InboundEnded? || (e.OutboundClosed? && !attached)
  {
    end, sent := StillServing, [];
    match e
    case OutboundClosed =>
      if bridge.transport != Some(c) {
        end := Left;
      }
    case EncodeFailed(_) => end := Escaped;
    case WriteFailed(_) => end := Escaped;
    case ReceiveFailed(_) => end := Escaped;
    case Malformed(_) => end := Escaped;
    case InboundEnded(_) =>
      sent := bridge.MarkDisconnected(c, None);
      end := Left;
    case Hello =>
    case StatusReport(ReportError, error) =>
      sent := bridge.MarkError(c, TextOr(error, UNKNOWN_BROWSER_ERROR));
    case StatusReport(ReportDisconnected, error) =>
      sent := bridge.MarkDisconnected(c, error);
    case StatusReport(_, _) =>
    case Response(_, _, _, _, _) => sent := AnswerRequest(bridge, c, BrowserMode, e, attached);
  }

  /** The browser loop, with every reply it sends. Left through an ended connection the
      bridge is not attached any more; escaped, it still is unless a status report
      detached it before. */
  method ServeBrowser(bridge: BB.Bridge, c: ConnectionId, browser: string, now: string, turns: seq<Turn>)
    returns (end: LoopEnd, served: nat, replaced: seq<BB.SlotSend>, sent: seq<seq<BB.SlotSend>>, ghost parked: seq<map<RequestId, Sender>>)
    modifies bridge
    ensures served <= |turns| && (end == StillServing ==> served == |turns|)
    ensures end == Escaped ==> served > 0 && Escapes(BrowserMode, turns[served - 1])
    ensures forall i | 0 <= i < (if end == Escaped then served - 1 else served) :: !Escapes(BrowserMode, turns[i])
    ensures bridge.activeConnectionId == if StillAttached(BrowserMode, turns, served) then Some(c) else None
    ensures end == Left ==> bridge.activeConnectionId.None?
    ensures Coupled(bridge.View())
    ensures BB.Drains(replaced, old(bridge.pending), Err(ConnectionReplaced))
    ensures Trace(BrowserMode, turns, served, parked, sent) && bridge.pending == parked[served]
  {
    replaced := bridge.Attach(c, browser, now);
    end, served, sent, parked := StillServing, 0, [], [map[]];
    while end == StillServing && served < |turns|
      invariant served <= |turns|
      invariant Holds(bridge, c, StillAttached(BrowserMode, turns, served))
      invariant end == Left ==> bridge.activeConnectionId.None?
      invariant end == Escaped ==> served > 0 && Escapes(BrowserMode, turns[served - 1])
      invariant forall i | 0 <= i < (if end == Escaped then served - 1 else served) :: !Escapes(BrowserMode, turns[i])
      invariant Trace(BrowserMode, turns, served, parked, sent) && bridge.pending == parked[served]
      decreases |turns| - served
    {
      ghost var attached := StillAttached(BrowserMode, turns, served);
      var now: seq<BB.SlotSend> := [];
      match turns[served] {
        case Requested(id) => ParkRequest(bridge, c, id, attached);
        case Handled(e) => end, now := BrowserTurn(bridge, c, e, attached);
      }
      TraceMore(BrowserMode, turns, served, parked, sent, bridge.pending, now);
      sent, parked, served := sent + [now], parked + [bridge.pending], served + 1;
    }
  }

  method NativeTurn(bridge: BB.Bridge, c: ConnectionId, e: Event) returns (serving: bool, sent: seq<BB.SlotSend>)
    requires Holds(bridge, c, true)
    modifies bridge
    ensures Holds(bridge, c, serving)
    ensures TurnServed(NativeMode, Handled(e), true, old(bridge.pending), bridge.pending, sent)
    ensures serving <==> Marking(NativeMode, e).None?
  {
    serving, sent := true, [];
    match e
    case OutboundClosed =>
    case Hello =>
    case EncodeFailed(text) =>
      sent := bridge.MarkError(c, text);
      serving := false;
    case WriteFailed(text) =>
      sent := bridge.MarkDisconnected(c, Some(text));
      serving := false;
    case InboundEnded(text) =>
      sent := bridge.MarkDisconnected(c, Some(text));
      serving := false;
    case ReceiveFailed(text) =>
      sent := bridge.MarkDisconnected(c, Some(text));
      serving := false;
    case Malformed(text) =>
      sent := bridge.MarkError(c, text);
      serving := false;
    case StatusReport(ReportError, error) =>
      sent := bridge.MarkError(c, TextOr(error, UNKNOWN_NATIVE_ERROR));
      serving := false;
    case StatusReport(ReportDisconnected, error) =>
      sent := bridge.MarkDisconnected(c, error);
      serving := false;
    case StatusReport(_, _) =>
    case Response(_, _, _, _, _) => sent := AnswerRequest(bridge, c, NativeMode, e, true);
  }

  /** The native loop, with every reply it sends: it stops at the first event that marks
      the connection, and the bridge is then never left attached to it. */
  method ServeNative(bridge: BB.Bridge, c: ConnectionId, identity: string, now: string, turns: seq<Turn>)
    returns (serving: bool, served: nat, replaced: seq<BB.SlotSend>, sent: seq<seq<BB.SlotSend>>, ghost parked: seq<map<RequestId, Sender>>)
    modifies bridge
    ensures served <= |turns| && (serving ==> served == |turns|)
    ensures forall i | 0 <= i < (if serving then served else served - 1) :: !Marks(NativeMode, turns[i])
    ensures !serving ==> served > 0 && Marks(NativeMode, turns[served - 1])
    ensures bridge.activeConnectionId == (if serving then Some(c) else None)
    ensures Coupled(bridge.View())
    ensures BB.Drains(replaced, old(bridge.pending), Err(ConnectionReplaced))
    ensures Trace(NativeMode, turns, served, parked, sent) && bridge.pending == parked[served]
  {
    replaced := bridge.Attach(c, identity, now);
    serving, served, sent, parked := true, 0, [], [map[]];
    while serving && served < |turns|
      invariant served <= |turns| && Holds(bridge, c, serving)
      invariant forall i | 0 <= i < (if serving then served else served - 1) :: !Marks(NativeMode, turns[i])
      invariant !serving ==> served > 0 && Marks(NativeMode, turns[served - 1])
      invariant Trace(NativeMode, turns, served, parked, sent) && bridge.pending == parked[served]
      decreases |turns| - served
    {
      var now: seq<BB.SlotSend> := [];
      match turns[served] {
        case Requested(id) => ParkRequest(bridge, c, id, true);
        case Handled(e) => serving, now := NativeTurn(bridge, c, e);
      }
      TraceMore(NativeMode, turns, served, parked, sent, bridge.pending, now);
      sent, parked, served := sent + [now], parked + [bridge.pending], served + 1;
    }
  }
}
