/** The loop that serves clients from a helper process: each request is written to
    the helper, and one frame is read as its answer. A read that times out is given
    up, and the helper, whose answer is still to come, is kept. */
module DirectHelper {
  import opened Wrappers
  import opened E = ByteEncoding
  import opened F = Framing

  type Answer = a: seq<byte> | 1 <= |a| <= DAEMON_LIMIT witness [0]

  // One client's request, the helper's answer to it (in time, late or never), and how
  // the read for it went.
  datatype Client =
    | TurnedAway    // too large, or the helper could not be written to or read any more
    | Asked(answer: Option<Answer>, attempt: Attempt)

  datatype Outcome = Refused | TimedOut | Got(payload: seq<byte>) | Failed(error: FrameError)

  /** All the helper still has to give, counting its answer to this client. */
  function Coming(unread: seq<byte>, client: Client): seq<byte> {
    if client.Asked? && client.answer.Some? then unread + Frame(client.answer.value) else unread
  }

  /** What the client is told, and what the helper still has to give afterwards. */
  function Serve(unread: seq<byte>, client: Client): (Outcome, seq<byte>) {
    match client
    case TurnedAway => (Refused, unread)
    case Asked(_, GivenUp(n)) => (TimedOut, Dropped(Coming(unread, client), n))
    case Asked(_, Completes) =>
      match TakeFrame(Coming(unread, client), DAEMON_LIMIT)
      case Ok((payload, rest)) => (Got(payload), rest)
      case Err(e) => (Failed(e), if e == InvalidLength then Coming(unread, client)[4..] else [])
  }

  /** Can a read of this stream be given up after n bytes: it ends by itself once it
      has a bad header or a whole frame. */
  predicate CanStop(stream: seq<byte>, n: nat) {
    n <= |stream| && (n < 4 || (1 <= ReadLE32(stream) <= DAEMON_LIMIT && n < 4 + ReadLE32(stream)))
  }

  /** A read short of bytes waits, so it does not complete. */
  predicate Possible(unread: seq<byte>, client: Client) {
    client.Asked? ==>
      match client.attempt
      case GivenUp(n) => CanStop(Coming(unread, client), n)
      case Completes => TakeFrame(Coming(unread, client), DAEMON_LIMIT) != Err(UnexpectedEnd)
  }

  predicate Completing(client: Client) {
    client.Asked? && client.attempt.Completes?
  }

  predicate Valid(unread: seq<byte>, clients: seq<Client>)
    decreases |clients|
  {
    clients == [] || (Possible(unread, clients[0]) && Valid(Serve(unread, clients[0]).1, clients[1..]))
  }

  function Outcomes(unread: seq<byte>, clients: seq<Client>): seq<Outcome>
    decreases |clients|
  {
    if clients == [] then []
    else [Serve(unread, clients[0]).0] + Outcomes(Serve(unread, clients[0]).1, clients[1..])
  }

  function Remaining(unread: seq<byte>, clients: seq<Client>): seq<byte>
    decreases |clients|
  {
    if clients == [] then unread else Remaining(Serve(unread, clients[0]).1, clients[1..])
  }

  method ServeClient(helper: FileHandle, client: Client) returns (outcome: Outcome)
    modifies helper
    ensures (outcome, helper.unread) == Serve(old(helper.unread), client)
  {
    outcome := Refused;
    if client.Asked? {
      if client.answer.Some? {
        var written := helper.WriteFrame(client.answer.value, DAEMON_LIMIT);
      }
      match client.attempt
      case GivenUp(n) =>
        helper.unread := Dropped(helper.unread, n);
        outcome := TimedOut;
      case Completes =>
        var framed := helper.ReadFrame(DAEMON_LIMIT);
        outcome := if framed.Ok? then Got(framed.value) else Failed(framed.error);
    }
  }

  method ServeClients(helper: FileHandle, clients: seq<Client>) returns (outcomes: seq<Outcome>)
    modifies helper
    ensures outcomes == Outcomes(old(helper.unread), clients)
    ensures helper.unread == Remaining(old(helper.unread), clients)
  {
    outcomes := [];
    assert clients[0..] == clients;
    for i := 0 to |clients|
      invariant Outcomes(old(helper.unread), clients) == outcomes + Outcomes(helper.unread, clients[i..])
      invariant Remaining(old(helper.unread), clients) == Remaining(helper.unread, clients[i..])
    {
      assert clients[i..][0] == clients[i] && clients[i..][1..] == clients[i + 1..];
      var outcome := ServeClient(helper, clients[i]);
      assert forall later: seq<Outcome> :: outcomes + ([outcome] + later) == outcomes + [outcome] + later;
      outcomes := outcomes + [outcome];
    }
    assert clients[|clients|..] == [];
  }

  /** What a client is told: "refused" exactly if turned away, "timed out" exactly if its
      read was given up; else a payload or the reader's own error. */
  lemma OutcomeTells(unread: seq<byte>, client: Client)
    requires Possible(unread, client)
    ensures var outcome := Serve(unread, client).0;
            && (outcome == Refused <==> client.TurnedAway?)
            && (outcome == TimedOut <==> client.Asked? && client.attempt.GivenUp?)
            && (outcome.Failed? ==> outcome.error == InvalidLength)
    ensures client.TurnedAway? ==> Serve(unread, client).1 == unread
  {
  }

  // ---------- whose answer a client gets ----------

  /** A read that completes takes this client's own answer, from its first byte to its
      last: nothing was before it, and nothing of it is left. */
  predicate OwnAnswer(unread: seq<byte>, client: Client) {
    Completing(client) ==> client.answer.Some? && Serve(unread, client) == (Got(client.answer.value), [])
  }

  /** The answer is the client's own if and only if nothing was owed when it asked. */
  lemma OwnAnswerExactly(unread: seq<byte>, client: Client)
    requires Possible(unread, client)
    ensures OwnAnswer(unread, client) <==> (Completing(client) ==> unread == [])
  {
    if Completing(client) && client.answer.Some? {
      FrameHeader(client.answer.value, []);
      assert Frame(client.answer.value) + [] == [] + Frame(client.answer.value);
    }
  }

  predicate AllOwn(unread: seq<byte>, clients: seq<Client>)
    decreases |clients|
  {
    clients == [] || (OwnAnswer(unread, clients[0]) && AllOwn(Serve(unread, clients[0]).1, clients[1..]))
  }

  function AnswerLength(client: Client): nat {
    if client.Asked? && client.answer.Some? then 4 + |client.answer.value| else 0
  }

  /** No read completes while the helper owes bytes to an earlier client. Bytes are
      owed from a read given up until reads given up later have taken them all. */
  predicate NeverOwing(owed: int, clients: seq<Client>)
    decreases |clients|
  {
    clients == [] ||
      match clients[0]
      case TurnedAway => NeverOwing(owed, clients[1..])
      case Asked(_, GivenUp(n)) => NeverOwing(owed + AnswerLength(clients[0]) - n, clients[1..])
      case Asked(_, Completes) => owed == 0 && NeverOwing(0, clients[1..])
  }

  /** Over any series of clients, each one whose read completes gets its own answer if
      and only if no read completes while bytes are owed to an earlier client. */
  lemma {:induction false} OwnAnswersExactly(unread: seq<byte>, clients: seq<Client>)
    requires Valid(unread, clients)
    ensures AllOwn(unread, clients) <==> NeverOwing(|unread|, clients)
    decreases |clients|
  {
    if clients != [] {
      var next := Serve(unread, clients[0]).1;
      OwnAnswerExactly(unread, clients[0]);
      OwnAnswersExactly(next, clients[1..]);
    }
  }

  lemma {:induction false} OwnAnswersAreGot(unread: seq<byte>, clients: seq<Client>, k: nat)
    requires AllOwn(unread, clients) && k < |clients| && Completing(clients[k])
    ensures clients[k].answer.Some? && |Outcomes(unread, clients)| == |clients|
    ensures Outcomes(unread, clients)[k] == Got(clients[k].answer.value)
    decreases |clients|
  {
    OutcomeForEach(unread, clients);
    if k > 0 {
      OwnAnswersAreGot(Serve(unread, clients[0]).1, clients[1..], k - 1);
    }
  }

  lemma {:induction false} OutcomeForEach(unread: seq<byte>, clients: seq<Client>)
    ensures |Outcomes(unread, clients)| == |clients|
    decreases |clients|
  {
    if clients != [] {
      OutcomeForEach(Serve(unread, clients[0]).1, clients[1..]);
    }
  }

  /** While no answered read is given up, every client gets its own answer. */
  lemma {:induction false} PromptHelperServesAll(clients: seq<Client>)
    requires Valid([], clients)
    requires forall k | 0 <= k < |clients| :: clients[k].Asked? && clients[k].attempt.GivenUp? ==> clients[k].answer.None?
    ensures AllOwn([], clients) && Remaining([], clients) == []
    decreases |clients|
  {
    if clients != [] {
      OwnAnswerExactly([], clients[0]);
      assert Serve([], clients[0]).1 == [];
      assert forall k | 0 <= k < |clients[1..]| :: clients[1..][k] == clients[k + 1];
      PromptHelperServesAll(clients[1..]);
    }
  }

  /** Once an answered read is given up, the next read to complete does not take its
      client's own answer. */
  lemma FirstLateAnswerMisleads(late: Answer, n: nat, next: Client)
    requires Possible([], Asked(Some(late), GivenUp(n))) && Completing(next)
    requires Possible(Serve([], Asked(Some(late), GivenUp(n))).1, next)
    ensures !OwnAnswer(Serve([], Asked(Some(late), GivenUp(n))).1, next)
  {
    FrameHeader(late, []);
    assert Frame(late) + [] == [] + Frame(late);
    OwnAnswerExactly(Serve([], Asked(Some(late), GivenUp(n))).1, next);
  }

  function InTime(answers: seq<Answer>): seq<Client> {
    if answers == [] then [] else [Asked(Some(answers[0]), Completes)] + InTime(answers[1..])
  }

  /** After one read given up before its answer came, with every later answer in time,
      each client gets the answer to the client before it, for ever. */
  lemma {:induction false} LateAnswerShiftsAll(late: Answer, answers: seq<Answer>)
    ensures Valid(Frame(late), InTime(answers))
    ensures |Outcomes(Frame(late), InTime(answers))| == |answers|
    ensures forall k | 0 <= k < |answers| ::
              Outcomes(Frame(late), InTime(answers))[k] == Got(if k == 0 then late else answers[k - 1])
    decreases |answers|
  {
    if answers != [] {
      var clients := InTime(answers);
      FrameHeader(late, Frame(answers[0]));
      assert clients[1..] == InTime(answers[1..]);
      assert Serve(Frame(late), clients[0]) == (Got(late), Frame(answers[0]));
      LateAnswerShiftsAll(answers[0], answers[1..]);
      assert Outcomes(Frame(late), clients) == [Got(late)] + Outcomes(Frame(answers[0]), clients[1..]);
    }
  }
}
