/** The daemon and the extensions that serve its connections, together: what a
    caller of the daemon gets back is the native port's answer to what it sent.

    Messages between the two may be late, repeated or out of order; the theorem
    needs none of that excluded. */
module EndToEnd {
  import opened Wrappers
  import B = BridgeState
  import R = BridgeRuns
  import D = BridgeTheorems
  import H = ConnectionHandlers
  import S = ControllerState
  import T = ControllerTheorems

  // ---------- request ids on the wire ----------

  const DIGITS := "0123456789"

  function Decimal(n: nat): (text: string)
    ensures text != ""
  {
    (if n < 10 then "" else Decimal(n / 10)) + [DIGITS[n % 10]]
  }

  function WireId(id: B.RequestId): string {
    "bridge-" + Decimal(id)
  }

  /** The number a text of decimal digits stands for, read from the left. */
  function ReadDecimal(text: string): nat {
    if text == "" then 0 else ReadDecimal(text[..|text| - 1]) * 10 + DigitValue(text[|text| - 1])
  }

  function DigitValue(c: char): nat {
    if '0' <= c <= '9' then c as int - '0' as int else 0
  }

  lemma DigitIs(k: nat)
    requires k < 10
    ensures DigitValue(DIGITS[k]) == k && '0' <= DIGITS[k] <= '9'
  {
  }

  lemma {:induction false} DecimalReads(n: nat)
    ensures ReadDecimal(Decimal(n)) == n
    ensures forall i | 0 <= i < |Decimal(n)| :: '0' <= Decimal(n)[i] <= '9'
  {
    DigitIs(n % 10);
    var higher := if n < 10 then "" else Decimal(n / 10);
    assert Decimal(n) == higher + [DIGITS[n % 10]];
    assert Decimal(n)[..|Decimal(n)| - 1] == higher;
    if n >= 10 {
      DecimalReads(n / 10);
    }
  }

  lemma WireIdInjective(a: B.RequestId, b: B.RequestId)
    requires WireId(a) == WireId(b)
    ensures a == b
  {
    assert Decimal(a) == WireId(a)[7..] && Decimal(b) == WireId(b)[7..];
    DecimalReads(a);
    DecimalReads(b);
  }

  // ---------- the system ----------

  datatype System = System(world: R.World, extensions: seq<S.Controller>)

  datatype Move =
    | Daemon(step: R.Step)                                            // no response arrives
    | Extension(x: nat, event: S.Event)                               // no request arrives
    | Down(x: nat, socket: S.SocketId, id: B.RequestId, f: S.Faults)  // a request the daemon sent arrives
    | Up(c: B.ConnectionId, x: nat, i: nat, id: B.RequestId)          // response i of extension x arrives

  function Arrival(w: R.World, socket: S.SocketId, id: B.RequestId, f: S.Faults): S.Event
    requires id in w.payloads
  {
    S.Message(socket, S.Envelope(true, WireId(id), w.payloads[id]), f)
  }

  /** A success arrives as the port's body, a failure as its code. */
  function ReplyTo(a: S.Answer): (reply: B.Reply)
    ensures a.Success? ==> reply == Ok(a.message.body)
    ensures a.Failed? ==> reply == Err(B.Remote(Some(a.code), None))
  {
    match a
    case Success(m) => H.ReplyOf(H.BrowserMode, true, Some(m.body), None, None)
    case Failed(code) => H.ReplyOf(H.BrowserMode, false, None, Some(code), None)
  }

  ghost predicate Enabled(sys: System, m: Move) {
    match m
    case Daemon(s) => R.Enabled(sys.world, s) && !s.Respond?
    case Extension(x, e) => x < |sys.extensions| && S.Enabled(sys.extensions[x], e) && T.Arriving(e) == []
    case Down(x, socket, id, f) =>
      && x < |sys.extensions| && id in sys.world.routed && id in sys.world.payloads
      && S.Enabled(sys.extensions[x], Arrival(sys.world, socket, id, f))
    case Up(c, x, i, id) =>
      && x < |sys.extensions| && i < |sys.extensions[x].responses|
      && sys.extensions[x].responses[i].onWire && sys.extensions[x].responses[i].request.id == WireId(id)
      && R.Enabled(sys.world, R.Respond(c, id, ReplyTo(sys.extensions[x].responses[i].answer)))
  }

  function EventOf(sys: System, m: Move): S.Event
    requires m.Extension? || (m.Down? && m.id in sys.world.payloads)
  {
    if m.Extension? then m.event else Arrival(sys.world, m.socket, m.id, m.f)
  }

  ghost function Apply(sys: System, m: Move): System
    requires Enabled(sys, m)
  {
    match m
    case Daemon(s) => sys.(world := R.Apply(sys.world, s))
    case Up(c, x, i, id) =>
      sys.(world := R.Responded(sys.world, c, id, ReplyTo(sys.extensions[x].responses[i].answer)))
    case _ =>
      sys.(extensions := sys.extensions[m.x := S.Apply(sys.extensions[m.x], EventOf(sys, m))])
  }

  ghost predicate Valid(sys: System, run: seq<Move>)
    decreases |run|
  {
    run == [] || (Enabled(sys, run[0]) && Valid(Apply(sys, run[0]), run[1..]))
  }

  ghost function Exec(sys: System, run: seq<Move>): System
    requires Valid(sys, run)
    decreases |run|
  {
    if run == [] then sys else Exec(Apply(sys, run[0]), run[1..])
  }

  /** A port's reply used by the move is the one its request waits for. */
  ghost predicate Fits(sys: System, m: Move)
    requires Enabled(sys, m)
  {
    m.Extension? ==> T.Fits(sys.extensions[m.x], m.event)
  }

  ghost predicate FittingRun(sys: System, run: seq<Move>)
    requires Valid(sys, run)
    decreases |run|
  {
    run == [] || (Fits(sys, run[0]) && FittingRun(Apply(sys, run[0]), run[1..]))
  }

  /** The move closes no socket under a request in flight. */
  ghost predicate Calm(sys: System, m: Move)
    requires Enabled(sys, m)
  {
    m.Extension? ==> !T.DropsInFlight(sys.extensions[m.x], m.event)
  }

  ghost predicate CalmRun(sys: System, run: seq<Move>)
    requires Valid(sys, run)
    decreases |run|
  {
    run == [] || (Calm(sys, run[0]) && CalmRun(Apply(sys, run[0]), run[1..]))
  }

  // ---------- what the system keeps ----------

  ghost predicate Orderly(c: S.Controller) {
    T.Linked(c) && T.Accounted(c) && T.Tidy(c)
  }

  ghost predicate AllOrderly(sys: System) {
    forall x | 0 <= x < |sys.extensions| :: Orderly(sys.extensions[x])
  }

  /** Every success response of every extension carries the reply to its own request. */
  ghost predicate AllMatched(sys: System) {
    forall x | 0 <= x < |sys.extensions| :: T.Matched(sys.extensions[x])
  }

  /** No port owes a reply for a request given up. */
  ghost predicate NothingOwed(sys: System) {
    forall x | 0 <= x < |sys.extensions| :: T.Skew(sys.extensions[x]) == 0
  }

  /** The request is one the daemon sent, with its payload. */
  ghost predicate FromDaemon(w: R.World, r: S.Request) {
    exists id :: id in w.routed && id in w.payloads && r == S.Request(WireId(id), w.payloads[id])
  }

  ghost predicate AllFromDaemon(w: R.World, c: S.Controller) {
    forall k | 0 <= k < |c.accepted| :: FromDaemon(w, c.accepted[k])
  }

  /** Response i of the controller answers this request, with the `body` its port gave
      to the payload posted for that very request. */
  ghost predicate Answers(c: S.Controller, i: nat, r: S.Request, body: B.Json) {
    && i < |c.responses| && c.responses[i].request == r && c.responses[i].answer.Success?
    && var m := c.responses[i].answer.message;
       && m.body == body
       && m.port < |c.env.ports| && m.index < |c.env.ports[m.port].posted|
       && c.env.ports[m.port].posted[m.index] == S.Posted(i, r.payload)
  }

  /** Some extension's native port was posted this caller's request and answered `body`. */
  ghost predicate Genuine(sys: System, id: B.RequestId, body: B.Json) {
    && id in sys.world.routed && id in sys.world.payloads
    && exists x: nat, i: nat :: x < |sys.extensions|
         && Answers(sys.extensions[x], i, S.Request(WireId(id), sys.world.payloads[id]), body)
  }

  ghost predicate GenuineReplies(sys: System) {
    && (forall id | id in sys.world.held && sys.world.held[id].reply.Ok? :: Genuine(sys, id, sys.world.held[id].reply.value))
    && (forall i | 0 <= i < |sys.world.sends| && sys.world.sends[i].reply.Ok? ::
          Genuine(sys, sys.world.sends[i].request, sys.world.sends[i].reply.value))
  }

  ghost predicate Sound(sys: System) {
    && R.Inv(sys.world)
    && AllOrderly(sys) && AllMatched(sys)
    && (forall x | 0 <= x < |sys.extensions| :: AllFromDaemon(sys.world, sys.extensions[x]))
    && GenuineReplies(sys)
  }

  // ---------- each kind of move ----------

  lemma FromDaemonGrows(w: R.World, v: R.World, r: S.Request)
    requires D.Grows(w, v) && FromDaemon(w, r)
    ensures FromDaemon(v, r)
  {
    var id :| id in w.routed && id in w.payloads && r == S.Request(WireId(id), w.payloads[id]);
    assert id in v.routed && id in v.payloads && v.payloads[id] == w.payloads[id];
  }

  lemma GenuineInWorld(sys: System, v: R.World, id: B.RequestId, body: B.Json)
    requires D.Grows(sys.world, v) && Genuine(sys, id, body)
    ensures Genuine(sys.(world := v), id, body)
  {
    var x: nat, i: nat :| x < |sys.extensions| && Answers(sys.extensions[x], i, S.Request(WireId(id), sys.world.payloads[id]), body);
    assert v.payloads[id] == sys.world.payloads[id];
  }

  /** What the daemon newly holds or sends is a failure, or was held before. */
  ghost predicate NoNewAnswers(w: R.World, v: R.World) {
    && (forall id | id in v.held && v.held[id].reply.Ok? :: id in w.held && w.held[id] == v.held[id])
    && (forall i | 0 <= i < |v.sends| && v.sends[i].reply.Ok? ::
          (i < |w.sends| && w.sends[i] == v.sends[i])
          || (v.sends[i].request in w.held && w.held[v.sends[i].request].reply == v.sends[i].reply))
  }

  lemma DaemonStepNoNewAnswers(w: R.World, s: R.Step)
    requires R.Enabled(w, s) && !s.Respond?
    ensures NoNewAnswers(w, R.Apply(w, s))
  {
  }

  /** Every answer v holds or has sent was already genuine. */
  ghost predicate Backed(sys: System, v: R.World) {
    && (forall id | id in v.held && v.held[id].reply.Ok? :: Genuine(sys, id, v.held[id].reply.value))
    && (forall i | 0 <= i < |v.sends| && v.sends[i].reply.Ok? ::
          Genuine(sys, v.sends[i].request, v.sends[i].reply.value))
  }

  lemma NoNewAnswersBacked(sys: System, v: R.World)
    requires GenuineReplies(sys) && NoNewAnswers(sys.world, v)
    ensures Backed(sys, v)
  {
  }

  lemma BackedStaysGenuine(sys: System, v: R.World)
    requires D.Grows(sys.world, v) && Backed(sys, v)
    ensures GenuineReplies(sys.(world := v))
  {
    var sys' := sys.(world := v);
    forall id | id in v.held && v.held[id].reply.Ok? ensures Genuine(sys', id, v.held[id].reply.value) {
      GenuineInWorld(sys, v, id, v.held[id].reply.value);
    }
    forall i | 0 <= i < |v.sends| && v.sends[i].reply.Ok? ensures Genuine(sys', v.sends[i].request, v.sends[i].reply.value) {
      GenuineInWorld(sys, v, v.sends[i].request, v.sends[i].reply.value);
    }
  }

  lemma AllFromDaemonGrows(w: R.World, v: R.World, c: S.Controller)
    requires D.Grows(w, v) && AllFromDaemon(w, c)
    ensures AllFromDaemon(v, c)
  {
    forall k | 0 <= k < |c.accepted| ensures FromDaemon(v, c.accepted[k]) {
      FromDaemonGrows(w, v, c.accepted[k]);
    }
  }

  lemma WorldMoveSound(sys: System, v: R.World)
    requires Sound(sys) && R.Inv(v) && D.Grows(sys.world, v) && Backed(sys, v)
    ensures Sound(sys.(world := v))
  {
    BackedStaysGenuine(sys, v);
    forall x | 0 <= x < |sys.extensions| ensures AllFromDaemon(v, sys.extensions[x]) {
      AllFromDaemonGrows(sys.world, v, sys.extensions[x]);
    }
  }

  lemma ExtensionStep(c: S.Controller, e: S.Event)
    requires Orderly(c) && S.Enabled(c, e)
    ensures Orderly(S.Apply(c, e)) && T.PortsGrow(c, S.Apply(c, e))
    ensures T.Matched(S.Apply(c, e)) <==> T.Matched(c) && T.Fits(c, e)
    ensures c.responses <= S.Apply(c, e).responses && S.Apply(c, e).accepted == c.accepted + T.Arriving(e)
  {
    T.StepMatched(c, e);
    T.StepOrderly(c, e);
    T.StepGrows(c, e);
  }

  lemma GenuineInExtensions(sys: System, x: nat, v: S.Controller, id: B.RequestId, body: B.Json)
    requires x < |sys.extensions| && Genuine(sys, id, body)
    requires sys.extensions[x].responses <= v.responses && T.PortsGrow(sys.extensions[x], v)
    ensures Genuine(sys.(extensions := sys.extensions[x := v]), id, body)
  {
    var y: nat, i: nat :| y < |sys.extensions| && Answers(sys.extensions[y], i, S.Request(WireId(id), sys.world.payloads[id]), body);
    assert Answers(sys.extensions[x := v][y], i, S.Request(WireId(id), sys.world.payloads[id]), body);
  }

  lemma ExtensionMoveSound(sys: System, x: nat, v: S.Controller)
    requires Sound(sys) && x < |sys.extensions| && Orderly(v) && T.Matched(v) && AllFromDaemon(sys.world, v)
    requires sys.extensions[x].responses <= v.responses && T.PortsGrow(sys.extensions[x], v)
    ensures Sound(sys.(extensions := sys.extensions[x := v]))
  {
    var sys' := sys.(extensions := sys.extensions[x := v]);
    var w := sys.world;
    forall id | id in w.held && w.held[id].reply.Ok? ensures Genuine(sys', id, w.held[id].reply.value) {
      GenuineInExtensions(sys, x, v, id, w.held[id].reply.value);
    }
    forall i | 0 <= i < |w.sends| && w.sends[i].reply.Ok? ensures Genuine(sys', w.sends[i].request, w.sends[i].reply.value) {
      GenuineInExtensions(sys, x, v, w.sends[i].request, w.sends[i].reply.value);
    }
  }

  /** A success response to the request with this id is genuine. */
  lemma ResponseIsGenuine(sys: System, x: nat, i: nat, id: B.RequestId)
    requires Sound(sys) && x < |sys.extensions| && i < |sys.extensions[x].responses|
    requires sys.extensions[x].responses[i].answer.Success? && sys.extensions[x].responses[i].request.id == WireId(id)
    ensures Genuine(sys, id, sys.extensions[x].responses[i].answer.message.body)
  {
    var c := sys.extensions[x];
    T.MatchedPayload(c, i);
    assert c.accepted[i] == T.Requests(c.responses)[i] == c.responses[i].request;
    assert FromDaemon(sys.world, c.accepted[i]);
    var sent :| sent in sys.world.routed && sent in sys.world.payloads
      && c.accepted[i] == S.Request(WireId(sent), sys.world.payloads[sent]);
    WireIdInjective(sent, id);
    assert Answers(c, i, S.Request(WireId(id), sys.world.payloads[id]), c.responses[i].answer.message.body);
  }

  lemma RespondedBacked(sys: System, c: B.ConnectionId, id: B.RequestId, reply: B.Reply)
    requires GenuineReplies(sys) && (reply.Ok? ==> Genuine(sys, id, reply.value))
    ensures Backed(sys, R.Responded(sys.world, c, id, reply))
  {
  }

  lemma UpMoveSound(sys: System, m: Move)
    requires Sound(sys) && Enabled(sys, m) && m.Up?
    ensures Sound(Apply(sys, m))
  {
    var answer := sys.extensions[m.x].responses[m.i].answer;
    var respond := R.Respond(m.c, m.id, ReplyTo(answer));
    if answer.Success? {
      ResponseIsGenuine(sys, m.x, m.i, m.id);
    }
    RespondedBacked(sys, m.c, m.id, ReplyTo(answer));
    R.StepKeepsInv(sys.world, respond);
    D.StepGrows(sys.world, respond);
    WorldMoveSound(sys, R.Apply(sys.world, respond));
  }

  lemma StillFromDaemon(w: R.World, c: S.Controller, v: S.Controller, arriving: seq<S.Request>)
    requires AllFromDaemon(w, c) && v.accepted == c.accepted + arriving
    requires forall k | 0 <= k < |arriving| :: FromDaemon(w, arriving[k])
    ensures AllFromDaemon(w, v)
  {
    forall k | 0 <= k < |v.accepted| ensures FromDaemon(w, v.accepted[k]) {
      assert v.accepted[k] == if k < |c.accepted| then c.accepted[k] else arriving[k - |c.accepted|];
    }
  }

  lemma ArrivesFromDaemon(sys: System, m: Move)
    requires Enabled(sys, m) && (m.Extension? || m.Down?)
    ensures forall k | 0 <= k < |T.Arriving(EventOf(sys, m))| :: FromDaemon(sys.world, T.Arriving(EventOf(sys, m))[k])
  {
    if m.Down? {
      assert T.Arriving(EventOf(sys, m)) == [S.Request(WireId(m.id), sys.world.payloads[m.id])];
      assert FromDaemon(sys.world, S.Request(WireId(m.id), sys.world.payloads[m.id]));
    }
  }

  lemma EventMoveSound(sys: System, m: Move)
    requires Sound(sys) && Enabled(sys, m) && (m.Extension? || m.Down?) && Fits(sys, m)
    ensures Sound(Apply(sys, m))
  {
    var c, e := sys.extensions[m.x], EventOf(sys, m);
    ExtensionStep(c, e);
    ArrivesFromDaemon(sys, m);
    StillFromDaemon(sys.world, c, S.Apply(c, e), T.Arriving(e));
    ExtensionMoveSound(sys, m.x, S.Apply(c, e));
  }

  lemma DaemonMoveSound(sys: System, s: R.Step)
    requires Sound(sys) && Enabled(sys, Daemon(s))
    ensures Sound(Apply(sys, Daemon(s)))
  {
    R.StepKeepsInv(sys.world, s);
    D.StepGrows(sys.world, s);
    DaemonStepNoNewAnswers(sys.world, s);
    NoNewAnswersBacked(sys, R.Apply(sys.world, s));
    WorldMoveSound(sys, R.Apply(sys.world, s));
  }

  lemma MoveSound(sys: System, m: Move)
    requires Sound(sys) && Enabled(sys, m) && Fits(sys, m)
    ensures Sound(Apply(sys, m))
  {
    if m.Daemon? {
      DaemonMoveSound(sys, m.step);
    } else if m.Up? {
      UpMoveSound(sys, m);
    } else {
      EventMoveSound(sys, m);
    }
  }

  lemma {:induction false} RunSound(sys: System, run: seq<Move>)
    requires Sound(sys) && Valid(sys, run) && FittingRun(sys, run)
    ensures Sound(Exec(sys, run))
    decreases |run|
  {
    if run != [] {
      MoveSound(sys, run[0]);
      RunSound(Apply(sys, run[0]), run[1..]);
    }
  }

  /** Any number of extensions, each with sockets of either kind, and a fresh daemon. */
  ghost predicate Fresh(sys: System) {
    && sys.world == R.START
    && forall x | 0 <= x < |sys.extensions| ::
         sys.extensions[x] == S.Initial(true) || sys.extensions[x] == S.Initial(false)
  }

  lemma InitialOrderly(w: R.World, closesSynchronously: bool)
    ensures var c := S.Initial(closesSynchronously);
            Orderly(c) && T.Matched(c) && T.Skew(c) == 0 && AllFromDaemon(w, c)
  {
  }

  lemma StartHasNoReplies(sys: System)
    requires sys.world == R.START
    ensures GenuineReplies(sys)
  {
    assert sys.world.held == map[] && sys.world.sends == [];
  }

  lemma FreshSound(sys: System)
    requires Fresh(sys)
    ensures Sound(sys) && NothingOwed(sys)
  {
    D.StartInv();
    StartHasNoReplies(sys);
    forall x | 0 <= x < |sys.extensions|
      ensures var c := sys.extensions[x]; Orderly(c) && T.Matched(c) && T.Skew(c) == 0 && AllFromDaemon(sys.world, c)
    {
      InitialOrderly(sys.world, sys.extensions[x] == S.Initial(true));
    }
  }

  lemma SlotIsGenuine(sys: System, id: B.RequestId, body: B.Json)
    requires GenuineReplies(sys) && R.Addressed(sys.world) && R.Slot(sys.world.sends, id) == [Ok(body)]
    ensures Genuine(sys, id, body)
  {
    D.SlotHasSend(sys.world.sends, id);
  }

  /** In every run of the daemon with its extensions in which no reply was used while
      its port owed an older one, a caller that gets a payload back gets a native
      port's answer to the payload posted for that caller's own request. */
  lemma CallersGetAnswersToTheirPayloads(start: System, run: seq<Move>, end: System, id: B.RequestId, body: B.Json)
    requires Fresh(start) && Valid(start, run) && FittingRun(start, run) && Exec(start, run) == end
    requires id in end.world.returned && end.world.returned[id] == R.GotReply(Ok(body))
    ensures Genuine(end, id, body)
  {
    FreshSound(start);
    RunSound(start, run);
    SlotIsGenuine(end, id, body);
  }

  // ---------- the condition, exactly ----------

  lemma UpdatedMatched(sys: System, x: nat, v: S.Controller, fits: bool)
    requires AllOrderly(sys) && x < |sys.extensions| && Orderly(v)
    requires T.Matched(v) <==> T.Matched(sys.extensions[x]) && fits
    ensures var sys' := sys.(extensions := sys.extensions[x := v]);
            AllOrderly(sys') && (AllMatched(sys') <==> AllMatched(sys) && fits)
  {
    var after := sys.extensions[x := v];
    assert after[x] == v;
    assert forall y | 0 <= y < |after| && y != x :: after[y] == sys.extensions[y];
  }

  lemma MoveMatched(sys: System, m: Move)
    requires AllOrderly(sys) && Enabled(sys, m)
    ensures AllOrderly(Apply(sys, m))
    ensures AllMatched(Apply(sys, m)) <==> AllMatched(sys) && Fits(sys, m)
  {
    if m.Extension? || m.Down? {
      ExtensionStep(sys.extensions[m.x], EventOf(sys, m));
      UpdatedMatched(sys, m.x, S.Apply(sys.extensions[m.x], EventOf(sys, m)), Fits(sys, m));
    }
  }

  /** Over any run of the whole system, every success response of every extension
      carries the reply to its own request if and only if no reply was used while its
      port owed an older one. */
  lemma {:induction false} MatchedExactly(sys: System, run: seq<Move>)
    requires AllOrderly(sys) && Valid(sys, run)
    ensures AllMatched(Exec(sys, run)) <==> AllMatched(sys) && FittingRun(sys, run)
    decreases |run|
  {
    if run != [] {
      MoveMatched(sys, run[0]);
      MatchedExactly(Apply(sys, run[0]), run[1..]);
    }
  }

  lemma CalmStepFits(c: S.Controller, e: S.Event)
    requires Orderly(c) && T.Skew(c) == 0 && S.Enabled(c, e) && !T.DropsInFlight(c, e)
    ensures T.Fits(c, e) && T.Skew(S.Apply(c, e)) == 0
  {
    T.StepMatched(c, e);
  }

  lemma CalmMoveFits(sys: System, m: Move)
    requires AllOrderly(sys) && NothingOwed(sys) && Enabled(sys, m) && Calm(sys, m)
    ensures Fits(sys, m) && NothingOwed(Apply(sys, m))
  {
    if m.Extension? || m.Down? {
      CalmStepFits(sys.extensions[m.x], EventOf(sys, m));
    }
  }

  /** If no socket closes under a request in flight, every reply fits. */
  lemma {:induction false} CalmRunsFit(sys: System, run: seq<Move>)
    requires AllOrderly(sys) && NothingOwed(sys) && Valid(sys, run) && CalmRun(sys, run)
    ensures FittingRun(sys, run)
    decreases |run|
  {
    if run != [] {
      MoveMatched(sys, run[0]);
      CalmMoveFits(sys, run[0]);
      CalmRunsFit(Apply(sys, run[0]), run[1..]);
    }
  }

  lemma CalmCallersGetAnswersToTheirPayloads(start: System, run: seq<Move>, end: System, id: B.RequestId, body: B.Json)
    requires Fresh(start) && Valid(start, run) && CalmRun(start, run) && Exec(start, run) == end
    requires id in end.world.returned && end.world.returned[id] == R.GotReply(Ok(body))
    ensures Genuine(end, id, body)
  {
    FreshSound(start);
    CalmRunsFit(start, run);
    CallersGetAnswersToTheirPayloads(start, run, end, id, body);
  }
}
