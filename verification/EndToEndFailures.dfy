/** One run of the daemon with one extension in which a caller gets the answer to
    another caller's request. */
module EndToEndFailures {
  import opened Wrappers
  import B = BridgeState
  import R = BridgeRuns
  import S = ControllerState
  import C = ControllerFailures
  import opened E = EndToEnd

  function Start(sync: bool): System {
    System(R.START, [S.Initial(sync)])
  }

  lemma {:induction false} ExecThen(sys: System, run: seq<Move>, m: Move)
    requires Valid(sys, run) && Enabled(Exec(sys, run), m)
    ensures Valid(sys, run + [m]) && Exec(sys, run + [m]) == Apply(Exec(sys, run), m)
    decreases |run|
  {
    if run == [] {
      assert run + [m] == [m] && [m][1..] == [];
    } else {
      ExecThen(Apply(sys, run[0]), run[1..], m);
      assert (run + [m])[1..] == run[1..] + [m];
    }
  }

  ghost predicate Reachable(sync: bool, w: R.World, c: S.Controller) {
    exists run: seq<Move> :: Valid(Start(sync), run) && Exec(Start(sync), run) == System(w, [c])
  }

  lemma MoveThen(sync: bool, w: R.World, c: S.Controller, m: Move, v: R.World, d: S.Controller)
    requires Reachable(sync, w, c)
    requires Enabled(System(w, [c]), m) && Apply(System(w, [c]), m) == System(v, [d])
    ensures Reachable(sync, v, d)
  {
    var run :| Valid(Start(sync), run) && Exec(Start(sync), run) == System(w, [c]);
    ExecThen(Start(sync), run, m);
  }

  lemma DaemonThen(sync: bool, w: R.World, c: S.Controller, s: R.Step)
    requires Reachable(sync, w, c) && R.Enabled(w, s) && !s.Respond?
    ensures Reachable(sync, R.Apply(w, s), c)
  {
    MoveThen(sync, w, c, Daemon(s), R.Apply(w, s), c);
  }

  lemma ExtensionThen(sync: bool, w: R.World, c: S.Controller, e: S.Event)
    requires Reachable(sync, w, c) && S.Enabled(c, e) && !e.Message?
    ensures Reachable(sync, w, S.Apply(c, e))
  {
    assert [c][0 := S.Apply(c, e)] == [S.Apply(c, e)];
    MoveThen(sync, w, c, Extension(0, e), w, S.Apply(c, e));
  }

  lemma DownThen(sync: bool, w: R.World, c: S.Controller, socket: S.SocketId, id: B.RequestId)
    requires Reachable(sync, w, c) && id in w.routed && id in w.payloads
    requires S.Enabled(c, Arrival(w, socket, id, C.CALM))
    ensures Reachable(sync, w, S.Apply(c, Arrival(w, socket, id, C.CALM)))
  {
    var d := S.Apply(c, Arrival(w, socket, id, C.CALM));
    assert [c][0 := d] == [d];
    MoveThen(sync, w, c, Down(0, socket, id, C.CALM), w, d);
  }

  lemma WireIds()
    ensures WireId(1) == "bridge-1" && WireId(2) == "bridge-2"
  {
    assert DIGITS[1] == '1' && DIGITS[2] == '2';
    assert Decimal(1) == "" + ['1'] == "1" && Decimal(2) == "" + ['2'] == "2";
  }

  // ---------- the daemon's side ----------

  predicate FirstSent(w: R.World) {
    && w.bridge == B.Enqueue(B.Attach(B.INITIAL, 1, "a", "t1"), 1, true)
    && w.nextRequest == 2 && w.nextConnection == 2 && w.handshaking == {} && w.exited == {} && w.drawn == {}
    && w.routed == map[1 := 1] && w.payloads == map[1 := "first"] && w.sends == []
  }

  /** The first connection was lost, the second attached, and the second request sent on it. */
  predicate SecondSent(w: R.World) {
    && w.bridge.pending == map[2 := B.Sender(2)]
    && w.nextConnection == 3 && w.handshaking == {} && w.exited == {} && w.sends == []
    && w.routed == map[1 := 1, 2 := 2] && w.payloads == map[1 := "first", 2 := "second"]
    && 2 in w.awaiting
  }

  lemma SendsFirst(sync: bool, c: S.Controller) returns (w: R.World)
    requires Reachable(sync, R.START, c)
    ensures Reachable(sync, w, c) && FirstSent(w)
  {
    w := R.START;
    DaemonThen(sync, w, c, R.Accept);
    w := R.Apply(w, R.Accept);
    DaemonThen(sync, w, c, R.Join(1, "a", "t1"));
    w := R.Apply(w, R.Join(1, "a", "t1"));
    DaemonThen(sync, w, c, R.Issue);
    w := R.Apply(w, R.Issue);
    DaemonThen(sync, w, c, R.Submit(1, "first"));
    w := R.Apply(w, R.Submit(1, "first"));
  }

  lemma LosesFirst(sync: bool, w: R.World, c: S.Controller) returns (v: R.World)
    requires Reachable(sync, w, c) && FirstSent(w)
    ensures Reachable(sync, v, c)
    ensures v.bridge.pending == map[] && v.nextRequest == 2 && v.nextConnection == 3
    ensures v.handshaking == {2} && v.exited == {} && v.drawn == {}
    ensures v.routed == w.routed && v.payloads == w.payloads && v.sends == []
  {
    DaemonThen(sync, w, c, R.Detach(1, false, None));
    v := R.Apply(w, R.Detach(1, false, None));
    DaemonThen(sync, v, c, R.Accept);
    v := R.Apply(v, R.Accept);
  }

  lemma SubmitsSecond(sync: bool, w: R.World, c: S.Controller) returns (v: R.World)
    requires Reachable(sync, w, c) && w.drawn == {2} && w.nextConnection == 3
    requires w.bridge == B.Attach(w.bridge, 2, "a", "t2") && w.bridge.pending == map[]
    requires w.handshaking == {} && w.exited == {} && w.sends == []
    requires w.routed == map[1 := 1] && w.payloads == map[1 := "first"]
    ensures Reachable(sync, v, c) && SecondSent(v)
  {
    DaemonThen(sync, w, c, R.Submit(2, "second"));
    v := R.Apply(w, R.Submit(2, "second"));
  }

  lemma SendsSecond(sync: bool, w: R.World, c: S.Controller) returns (v: R.World)
    requires Reachable(sync, w, c) && w.bridge.pending == map[] && w.nextRequest == 2 && w.nextConnection == 3
    requires w.handshaking == {2} && w.exited == {} && w.drawn == {}
    requires w.routed == map[1 := 1] && w.payloads == map[1 := "first"] && w.sends == []
    ensures Reachable(sync, v, c) && SecondSent(v)
  {
    v := w;
    DaemonThen(sync, v, c, R.Join(2, "a", "t2"));
    v := R.Apply(v, R.Join(2, "a", "t2"));
    DaemonThen(sync, v, c, R.Issue);
    v := SubmitsSecond(sync, R.Apply(v, R.Issue), c);
  }

  lemma AnswersSecond(sync: bool, w: R.World, c: S.Controller) returns (v: R.World)
    requires Reachable(sync, w, c) && SecondSent(w) && C.Mispaired(c)
    ensures Reachable(sync, v, c) && v.payloads == w.payloads
    ensures 2 in v.returned && v.returned[2] == R.GotReply(Ok("answer to first"))
  {
    WireIds();
    v := R.Responded(w, 2, 2, Ok("answer to first"));
    MoveThen(sync, w, c, Up(2, 0, 1, 2), v, c);
    DaemonThen(sync, v, c, R.Send(2));
    v := R.Apply(v, R.Send(2));
    assert R.Slot(v.sends, 2) == [Ok("answer to first")];
    DaemonThen(sync, v, c, R.Wake(2));
    v := R.Apply(v, R.Wake(2));
  }

  // ---------- both together ----------

  lemma Opens(sync: bool) returns (c: S.Controller)
    ensures Reachable(sync, R.START, c) && C.JustOpened(c)
  {
    c := S.Initial(sync);
    assert Valid(Start(sync), []) && Exec(Start(sync), []) == System(R.START, [c]);
    C.FirstConnects(sync);
    ExtensionThen(sync, R.START, c, S.Start);
    c := S.Apply(c, S.Start);
    ExtensionThen(sync, R.START, c, S.SettingsLoaded(false));
    c := S.Apply(c, S.SettingsLoaded(false));
    C.FirstOpens(c);
    ExtensionThen(sync, R.START, c, S.Opened(0, C.CALM));
    c := S.Apply(c, S.Opened(0, C.CALM));
  }

  lemma ArrivesAndCloses(sync: bool, w: R.World, c: S.Controller) returns (d: S.Controller)
    requires Reachable(sync, w, c) && FirstSent(w) && C.JustOpened(c)
    ensures Reachable(sync, w, d) && C.ClosedUnderFirst(d)
  {
    WireIds();
    assert Arrival(w, 0, 1, C.CALM) == C.FIRST;
    C.FirstArrives(c);
    DownThen(sync, w, c, 0, 1);
    d := S.Apply(c, C.FIRST);
    C.ClosesUnderFirst(d);
    ExtensionThen(sync, w, d, S.Closed(0));
    d := S.Apply(d, S.Closed(0));
  }

  lemma ComesBack(sync: bool, w: R.World, c: S.Controller) returns (d: S.Controller)
    requires Reachable(sync, w, c) && C.ClosedUnderFirst(c)
    ensures Reachable(sync, w, d) && C.ReopenedOwing(d)
  {
    C.Reconnects(c);
    ExtensionThen(sync, w, c, S.TimerFired(0, false));
    d := S.Apply(c, S.TimerFired(0, false));
    C.Reopens(d);
    ExtensionThen(sync, w, d, S.Opened(1, C.CALM));
    d := S.Apply(d, S.Opened(1, C.CALM));
  }

  lemma ArrivesAndMispairs(sync: bool, w: R.World, c: S.Controller) returns (d: S.Controller)
    requires Reachable(sync, w, c) && SecondSent(w) && C.ReopenedOwing(c)
    ensures Reachable(sync, w, d) && C.Mispaired(d)
  {
    WireIds();
    assert Arrival(w, 1, 2, C.CALM) == C.SECOND;
    C.SecondArrives(c);
    DownThen(sync, w, c, 1, 2);
    d := S.Apply(c, C.SECOND);
    C.AnswerIsMispaired(d);
    ExtensionThen(sync, w, d, C.ANSWER);
    d := S.Apply(d, C.ANSWER);
  }

  lemma MispairedIsNotGenuine(w: R.World, c: S.Controller)
    requires C.Mispaired(c)
    ensures !Genuine(System(w, [c]), 2, "answer to first")
  {
    assert c.env.ports[0].posted[0] == S.Posted(0, "first");
  }

  /** The socket closes under the first request, and both sides reconnect. The second
      caller, whose payload is "second", gets the port's answer to "first". */
  lemma CallerGetsAnothersAnswer(sync: bool)
    ensures exists w, c ::
              && Reachable(sync, w, c) && 2 in w.payloads && w.payloads[2] == "second"
              && 2 in w.returned && w.returned[2] == R.GotReply(Ok("answer to first"))
              && C.Mispaired(c) && !Genuine(System(w, [c]), 2, "answer to first")
  {
    var c := Opens(sync);
    var w := SendsFirst(sync, c);
    c := ArrivesAndCloses(sync, w, c);
    w := LosesFirst(sync, w, c);
    c := ComesBack(sync, w, c);
    w := SendsSecond(sync, w, c);
    c := ArrivesAndMispairs(sync, w, c);
    w := AnswersSecond(sync, w, c);
    MispairedIsNotGenuine(w, c);
  }
}
