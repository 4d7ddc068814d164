/** Length-prefixed frames: the daemon's codec, the native host's, and the Deno
    reader that gathers a frame from chunks. */
module Framing {
  import opened Wrappers
  import M = ModArith
  import opened E = ByteEncoding

  const DAEMON_LIMIT := 32768        // MAX_HELPER_PAYLOAD of the Rust daemon
  const NATIVE_HOST_LIMIT := 16384   // the Swift native host, both directions
  const DENO_LIMIT := 16384          // MAX_HELPER_PAYLOAD of the Deno daemon

  datatype FrameError = PayloadTooLarge | UnexpectedEnd | InvalidLength | ResponseTooLarge | TrailingBytes

  function LE32(n: nat): seq<byte>
    requires n < 0x1_0000_0000
  {
    [n % 256, n / 256 % 256, n / 65536 % 256, n / 16777216]
  }

  function ReadLE32(b: seq<byte>): nat
    requires |b| >= 4
  {
    var b0: nat, b1: nat, b2: nat, b3: nat := b[0], b[1], b[2], b[3];
    b0 + b1 * 256 + b2 * 65536 + b3 * 16777216
  }

  /** Byte i of the header is the digit of 256^i: the lowest comes first. */
  lemma LE32Digits(n: nat, i: nat)
    requires n < 0x1_0000_0000 && i < 4
    ensures M.Pow(256, i) > 0 && LE32(n)[i] == n / M.Pow(256, i) % 256
  {
    assert M.Pow(256, 1) == 256 && M.Pow(256, 2) == 65536;
    assert M.Pow(256, 3) == 256 * M.Pow(256, 2) == 16777216;
  }

  lemma LE32RoundTrip(n: nat)
    requires n < 0x1_0000_0000
    ensures ReadLE32(LE32(n)) == n
  {
    var q1, q2, q3 := n / 256, n / 65536, n / 16777216;
    assert n == 256 * q1 + n % 256;
    assert q1 / 256 == q2 && q1 == 256 * q2 + q1 % 256;
    assert q2 / 256 == q3 && q2 == 256 * q3 + q2 % 256;
  }

  lemma LE32Canonical(b: seq<byte>)
    requires |b| >= 4
    ensures ReadLE32(b) < 0x1_0000_0000 && LE32(ReadLE32(b)) == b[..4]
  {
    var n := ReadLE32(b);
    var q3: nat := b[3];
    var q2: nat := q3 * 256 + b[2];
    var q1: nat := q2 * 256 + b[1];
    assert n == q1 * 256 + b[0];
    assert n / 256 == q1 && n % 256 == b[0];
    assert n / 65536 == q2 && q1 % 256 == b[1];
    assert n / 16777216 == q3 && q2 % 256 == b[2];
  }

  function Frame(payload: seq<byte>): seq<byte>
    requires |payload| < 0x1_0000_0000
  {
    LE32(|payload|) + payload
  }

  /** A writer refuses only what exceeds its limit: an empty payload is written. */
  function Write(payload: seq<byte>, limit: nat): Result<seq<byte>, FrameError>
    requires limit < 0x1_0000_0000
  {
    if |payload| > limit then Err(PayloadTooLarge) else Ok(Frame(payload))
  }

  /** A reader takes one frame off the stream: its payload and the rest. */
  function TakeFrame(stream: seq<byte>, limit: nat): Result<(seq<byte>, seq<byte>), FrameError> {
    if |stream| < 4 then Err(UnexpectedEnd) else
      var length := ReadLE32(stream);
      if length == 0 || length > limit then Err(InvalidLength)
      else if |stream| < 4 + length then Err(UnexpectedEnd)
      else Ok((stream[4..4 + length], stream[4 + length..]))
  }

  lemma FrameHeader(payload: seq<byte>, rest: seq<byte>)
    requires |payload| < 0x1_0000_0000
    ensures var s := Frame(payload) + rest;
            |s| == 4 + |payload| + |rest| && ReadLE32(s) == |payload|
            && s[4..4 + |payload|] == payload && s[4 + |payload|..] == rest
  {
    LE32RoundTrip(|payload|);
    var s := Frame(payload) + rest;
    assert forall i | 0 <= i < 4 :: s[i] == LE32(|payload|)[i];
  }

  /** What one codec writes another reads back, whatever follows on the stream,
      exactly for payloads that are not empty and within the reader's limit. */
  lemma FrameRoundTrip(payload: seq<byte>, rest: seq<byte>, writerLimit: nat, readerLimit: nat)
    requires writerLimit < 0x1_0000_0000
    ensures Write(payload, writerLimit).Ok? <==> |payload| <= writerLimit
    ensures |payload| <= writerLimit ==>
      (TakeFrame(Write(payload, writerLimit).value + rest, readerLimit) == Ok((payload, rest))
       <==> 1 <= |payload| <= readerLimit)
  {
    if |payload| <= writerLimit {
      FrameHeader(payload, rest);
    }
  }

  lemma VerdictOfPrefix(stream: seq<byte>, more: seq<byte>, limit: nat)
    ensures TakeFrame(stream, limit).Ok? ==>
      TakeFrame(stream + more, limit) == Ok((TakeFrame(stream, limit).value.0, TakeFrame(stream, limit).value.1 + more))
    ensures TakeFrame(stream, limit) == Err(InvalidLength) ==> TakeFrame(stream + more, limit) == Err(InvalidLength)
  {
    if |stream| >= 4 {
      assert forall i | 0 <= i < 4 :: (stream + more)[i] == stream[i];
      var length := ReadLE32(stream);
      if |stream| >= 4 + length {
        assert (stream + more)[4..4 + length] == stream[4..4 + length];
        assert (stream + more)[4 + length..] == stream[4 + length..] + more;
      }
    }
  }

  /** Bytes still missing after a good header can always arrive. */
  lemma CompleteFrame(stream: seq<byte>, limit: nat) returns (more: seq<byte>)
    requires |stream| >= 4 && TakeFrame(stream, limit) == Err(UnexpectedEnd)
    ensures TakeFrame(stream + more, limit).Ok?
  {
    more := seq(4 + ReadLE32(stream) - |stream|, _ => 0);
    assert forall i | 0 <= i < 4 :: (stream + more)[i] == stream[i];
  }

  /** The reader's verdict is about what may still arrive. It has a frame that stays the
      first whatever follows; or, once it has a header, it refuses exactly when no
      continuation has a frame, and otherwise waits; before that it always waits. */
  lemma VerdictIsFinal(stream: seq<byte>, limit: nat)
    ensures TakeFrame(stream, limit).Ok? ==>
      forall more: seq<byte> :: TakeFrame(stream + more, limit)
                             == Ok((TakeFrame(stream, limit).value.0, TakeFrame(stream, limit).value.1 + more))
    ensures TakeFrame(stream, limit) == Err(InvalidLength)
       <==> |stream| >= 4 && forall more: seq<byte> :: TakeFrame(stream + more, limit).Err?
    ensures TakeFrame(stream, limit).Err? ==> TakeFrame(stream, limit).error in {UnexpectedEnd, InvalidLength}
  {
    forall more: seq<byte>
      ensures TakeFrame(stream, limit).Ok? ==>
        TakeFrame(stream + more, limit) == Ok((TakeFrame(stream, limit).value.0, TakeFrame(stream, limit).value.1 + more))
      ensures TakeFrame(stream, limit) == Err(InvalidLength) ==> TakeFrame(stream + more, limit) == Err(InvalidLength)
    {
      VerdictOfPrefix(stream, more, limit);
    }
    if |stream| >= 4 && TakeFrame(stream, limit) == Err(UnexpectedEnd) {
      var more := CompleteFrame(stream, limit);
      assert TakeFrame(stream + more, limit).Ok?;
    } else if TakeFrame(stream, limit).Ok? {
      assert TakeFrame(stream + [], limit).Ok?;
    }
  }

  /** Daemon and native host understand each other's frames, in both directions,
      exactly up to the native host's limit; the daemon itself writes up to 32768 bytes. */
  lemma DaemonAndNativeHostInteroperate(payload: seq<byte>, rest: seq<byte>)
    ensures Write(payload, DAEMON_LIMIT).Ok? <==> |payload| <= 32768
    ensures (Write(payload, DAEMON_LIMIT).Ok?
             && TakeFrame(Write(payload, DAEMON_LIMIT).value + rest, NATIVE_HOST_LIMIT) == Ok((payload, rest)))
       <==> 1 <= |payload| <= 16384
    ensures (Write(payload, NATIVE_HOST_LIMIT).Ok?
             && TakeFrame(Write(payload, NATIVE_HOST_LIMIT).value + rest, DAEMON_LIMIT) == Ok((payload, rest)))
       <==> 1 <= |payload| <= 16384
  {
    FrameRoundTrip(payload, rest, DAEMON_LIMIT, NATIVE_HOST_LIMIT);
    FrameRoundTrip(payload, rest, NATIVE_HOST_LIMIT, DAEMON_LIMIT);
  }

  // ---------- streams of frames ----------

  predicate Writable(payloads: seq<seq<byte>>, limit: nat) {
    forall i | 0 <= i < |payloads| :: |payloads[i]| <= limit
  }

  function WriteAll(payloads: seq<seq<byte>>, limit: nat): seq<byte>
    requires limit < 0x1_0000_0000 && Writable(payloads, limit)
  {
    if payloads == [] then [] else Frame(payloads[0]) + WriteAll(payloads[1..], limit)
  }

  function ReadAll(stream: seq<byte>, limit: nat): Result<seq<seq<byte>>, FrameError>
    decreases |stream|
  {
    if stream == [] then Ok([]) else
      match TakeFrame(stream, limit)
      case Err(e) => Err(e)
      case Ok((payload, rest)) =>
        match ReadAll(rest, limit)
        case Err(e) => Err(e)
        case Ok(payloads) => Ok([payload] + payloads)
  }

  predicate Readable(payloads: seq<seq<byte>>, limit: nat) {
    forall i | 0 <= i < |payloads| :: 1 <= |payloads[i]| <= limit
  }

  lemma ReadableSplit(payloads: seq<seq<byte>>, limit: nat)
    requires payloads != []
    ensures Readable(payloads, limit) <==> 1 <= |payloads[0]| <= limit && Readable(payloads[1..], limit)
  {
    assert forall i | 0 <= i < |payloads[1..]| :: payloads[1..][i] == payloads[i + 1];
    assert forall i | 1 <= i < |payloads| :: payloads[i] == payloads[1..][i - 1];
  }

  lemma ReadAllAfterFrame(payload: seq<byte>, rest: seq<byte>, limit: nat)
    requires |payload| < 0x1_0000_0000
    ensures ReadAll(Frame(payload) + rest, limit) ==
            if !(1 <= |payload| <= limit) then Err(InvalidLength)
            else if ReadAll(rest, limit).Err? then ReadAll(rest, limit)
            else Ok([payload] + ReadAll(rest, limit).value)
  {
    FrameHeader(payload, rest);
  }

  /** A list of payloads written one after the other is read back as that list, with
      no byte left, exactly when none is empty and all are within the limit. */
  lemma {:induction false} StreamRoundTrip(payloads: seq<seq<byte>>, writerLimit: nat, readerLimit: nat)
    requires writerLimit < 0x1_0000_0000 && Writable(payloads, writerLimit)
    ensures ReadAll(WriteAll(payloads, writerLimit), readerLimit) == Ok(payloads) <==> Readable(payloads, readerLimit)
    decreases |payloads|
  {
    if payloads != [] {
      var rest := payloads[1..];
      StreamRoundTrip(rest, writerLimit, readerLimit);
      ReadAllAfterFrame(payloads[0], WriteAll(rest, writerLimit), readerLimit);
      ReadableSplit(payloads, readerLimit);
      var tail := ReadAll(WriteAll(rest, writerLimit), readerLimit);
      if tail.Ok? {
        assert ([payloads[0]] + tail.value)[1..] == tail.value;
      }
      assert payloads == [payloads[0]] + rest;
    }
  }

  /** Any stream that is read to its end is the writing of what was read. */
  lemma {:induction false} StreamIsCanonical(stream: seq<byte>, limit: nat)
    requires limit < 0x1_0000_0000 && ReadAll(stream, limit).Ok?
    ensures var payloads := ReadAll(stream, limit).value;
            Writable(payloads, limit) && WriteAll(payloads, limit) == stream
    decreases |stream|
  {
    if stream != [] {
      var (payload, rest) := TakeFrame(stream, limit).value;
      StreamIsCanonical(rest, limit);
      var payloads := ReadAll(stream, limit).value;
      assert payloads[1..] == ReadAll(rest, limit).value;
      LE32Canonical(stream);
      assert stream == stream[..4] + payload + rest;
    }
  }

  // ---------- reads given up half way ----------

  // One attempt to read a frame: it runs to its end, or it is given up after taking
  // some bytes off the stream, which are then lost.
  datatype Attempt = Completes | GivenUp(taken: nat)

  function Dropped(stream: seq<byte>, n: nat): seq<byte> {
    if n <= |stream| then stream[n..] else []
  }

  /** The payloads read by a series of attempts, and what is left. */
  function ReadAttempts(stream: seq<byte>, attempts: seq<Attempt>, limit: nat):
    Result<(seq<seq<byte>>, seq<byte>), FrameError>
    decreases |attempts|
  {
    if attempts == [] then Ok(([], stream)) else
      match attempts[0]
      case GivenUp(n) => ReadAttempts(Dropped(stream, n), attempts[1..], limit)
      case Completes =>
        match TakeFrame(stream, limit)
        case Err(e) => Err(e)
        case Ok((payload, rest)) =>
          match ReadAttempts(rest, attempts[1..], limit)
          case Err(e) => Err(e)
          case Ok((payloads, left)) => Ok(([payload] + payloads, left))
  }

  /** The bytes lost to attempts given up. */
  function Lost(stream: seq<byte>, attempts: seq<Attempt>, limit: nat): nat
    decreases |attempts|
  {
    if attempts == [] then 0 else
      match attempts[0]
      case GivenUp(n) => |stream| - |Dropped(stream, n)| + Lost(Dropped(stream, n), attempts[1..], limit)
      case Completes =>
        match TakeFrame(stream, limit)
        case Err(_) => 0
        case Ok((_, rest)) => Lost(rest, attempts[1..], limit)
  }

  function Completions(attempts: seq<Attempt>): nat {
    if attempts == [] then 0 else (if attempts[0].Completes? then 1 else 0) + Completions(attempts[1..])
  }

  function WrittenLength(payloads: seq<seq<byte>>): nat {
    if payloads == [] then 0 else 4 + |payloads[0]| + WrittenLength(payloads[1..])
  }

  /** Every byte of the stream is in a frame read, lost, or left. */
  lemma {:induction false} BytesAreAccountedFor(stream: seq<byte>, attempts: seq<Attempt>, limit: nat)
    requires ReadAttempts(stream, attempts, limit).Ok?
    ensures var (payloads, left) := ReadAttempts(stream, attempts, limit).value;
            |stream| == WrittenLength(payloads) + Lost(stream, attempts, limit) + |left|
    decreases |attempts|
  {
    if attempts != [] {
      match attempts[0]
      case GivenUp(n) => BytesAreAccountedFor(Dropped(stream, n), attempts[1..], limit);
      case Completes =>
        var (payload, rest) := TakeFrame(stream, limit).value;
        BytesAreAccountedFor(rest, attempts[1..], limit);
        var (payloads, left) := ReadAttempts(rest, attempts[1..], limit).value;
        assert ([payload] + payloads)[1..] == payloads;
    }
  }

  lemma TakesFirst(payloads: seq<seq<byte>>, writerLimit: nat, limit: nat)
    requires writerLimit < 0x1_0000_0000 && Writable(payloads, writerLimit)
    requires payloads != [] && 1 <= |payloads[0]| <= limit
    ensures TakeFrame(WriteAll(payloads, writerLimit), limit) == Ok((payloads[0], WriteAll(payloads[1..], writerLimit)))
  {
    FrameHeader(payloads[0], WriteAll(payloads[1..], writerLimit));
  }

  lemma {:induction false} NothingLostReadsPrefix(payloads: seq<seq<byte>>, attempts: seq<Attempt>, writerLimit: nat, limit: nat)
    requires writerLimit < 0x1_0000_0000 && Writable(payloads, writerLimit) && Readable(payloads, limit)
    requires Completions(attempts) <= |payloads|
    requires Lost(WriteAll(payloads, writerLimit), attempts, limit) == 0
    ensures var k := Completions(attempts);
            ReadAttempts(WriteAll(payloads, writerLimit), attempts, limit) == Ok((payloads[..k], WriteAll(payloads[k..], writerLimit)))
    decreases |attempts|
  {
    var stream, k := WriteAll(payloads, writerLimit), Completions(attempts);
    if attempts == [] {
      assert payloads[0..] == payloads;
    } else {
      match attempts[0]
      case GivenUp(n) =>
        assert Dropped(stream, n) == stream;
        NothingLostReadsPrefix(payloads, attempts[1..], writerLimit, limit);
      case Completes =>
        var rest := payloads[1..];
        ReadableSplit(payloads, limit);
        TakesFirst(payloads, writerLimit, limit);
        NothingLostReadsPrefix(rest, attempts[1..], writerLimit, limit);
        assert payloads[..k] == [payloads[0]] + rest[..k - 1] && payloads[k..] == rest[k - 1..];
    }
  }

  lemma {:induction false} WriteAllSplit(payloads: seq<seq<byte>>, k: nat, limit: nat)
    requires limit < 0x1_0000_0000 && Writable(payloads, limit) && k <= |payloads|
    ensures |WriteAll(payloads, limit)| == WrittenLength(payloads[..k]) + |WriteAll(payloads[k..], limit)|
    decreases k
  {
    if k == 0 {
      assert payloads[0..] == payloads;
    } else {
      WriteAllSplit(payloads[1..], k - 1, limit);
      assert payloads[1..][k - 1..] == payloads[k..] && payloads[1..][..k - 1] == payloads[..k][1..];
    }
  }

  /** At any point of a series of attempts, with as many completed as k frames: the
      first k frames written have been read as they were written, and what is left is
      the writing of the others, if and only if no attempt given up had taken a byte. */
  lemma InterruptedReadsExactly(payloads: seq<seq<byte>>, attempts: seq<Attempt>, writerLimit: nat, limit: nat)
    requires writerLimit < 0x1_0000_0000 && Writable(payloads, writerLimit) && Readable(payloads, limit)
    requires Completions(attempts) <= |payloads|
    ensures ReadAttempts(WriteAll(payloads, writerLimit), attempts, limit)
            == Ok((payloads[..Completions(attempts)], WriteAll(payloads[Completions(attempts)..], writerLimit)))
       <==> Lost(WriteAll(payloads, writerLimit), attempts, limit) == 0
  {
    var stream, k := WriteAll(payloads, writerLimit), Completions(attempts);
    if Lost(stream, attempts, limit) == 0 {
      NothingLostReadsPrefix(payloads, attempts, writerLimit, limit);
    } else if ReadAttempts(stream, attempts, limit) == Ok((payloads[..k], WriteAll(payloads[k..], writerLimit))) {
      BytesAreAccountedFor(stream, attempts, limit);
      WriteAllSplit(payloads, k, writerLimit);
    }
  }

  /** Whatever the read given up had taken, the frame it was reading is read next, with
      the same rest, exactly if it had taken nothing. */
  lemma NextFrameAfterInterruption(payload: seq<byte>, rest: seq<byte>, taken: nat, limit: nat)
    requires 1 <= |payload| <= limit < 0x1_0000_0000 && taken <= 4 + |payload|
    ensures TakeFrame((Frame(payload) + rest)[taken..], limit) == Ok((payload, rest)) <==> taken == 0
  {
    FrameHeader(payload, rest);
  }

  /** A read given up after the header hands out part of the payload as a frame. */
  lemma InterruptedReadMisreads()
    ensures exists payload: seq<byte>, taken: nat :: |payload| == 5 && taken == 4
              && TakeFrame(Frame(payload)[taken..], DAEMON_LIMIT) == Ok(([9], []))
  {
    var payload: seq<byte> := [1, 0, 0, 0, 9];
    assert Frame(payload)[4..] == payload;
    assert payload[4..5] == [9] && payload[5..] == [];
  }

  // ---------- the native host's handle ----------

  // A file handle: what is still to arrive, and how many bytes each read finds ready.
  class FileHandle {
    var unread: seq<byte>
    var ready: seq<nat>

    constructor (unread: seq<byte>, ready: seq<nat>)
      ensures this.unread == unread && this.ready == ready
    {
      this.unread, this.ready := unread, ready;
    }

    // At least one byte unless the stream has ended, at most `upToCount`.
    method Read(upToCount: nat) returns (chunk: seq<byte>)
      requires upToCount > 0
      modifies this
      ensures |chunk| <= upToCount && (chunk == [] <==> old(unread) == [])
      ensures old(unread) == chunk + unread
    {
      var n := if ready == [] || ready[0] == 0 then 1 else ready[0];
      ready := if ready == [] then [] else ready[1..];
      n := if n > upToCount then upToCount else n;
      n := if n > |unread| then |unread| else n;
      chunk := unread[..n];
      unread := unread[n..];
    }

    /** However the bytes arrive, exactly the next `count` of them, or an error when
        the stream is shorter. */
    method ReadExact(count: nat) returns (outcome: Result<seq<byte>, FrameError>)
      modifies this
      ensures outcome == if |old(unread)| < count then Err(UnexpectedEnd) else Ok(old(unread)[..count])
      ensures unread == if |old(unread)| < count then [] else old(unread)[count..]
    {
      var data := [];
      while |data| < count
        invariant |data| <= count && old(unread) == data + unread
        decreases count - |data|
      {
        var chunk := Read(count - |data|);
        if |chunk| == 0 {
          return Err(UnexpectedEnd);
        }
        data := data + chunk;
      }
      outcome := Ok(data);
    }

    method ReadFrame(limit: nat) returns (outcome: Result<seq<byte>, FrameError>)
      modifies this
      ensures match TakeFrame(old(unread), limit)
              case Ok((payload, rest)) => outcome == Ok(payload) && unread == rest
              case Err(e) =>
                && outcome == Err(e)
                && unread == if e == InvalidLength then old(unread)[4..] else []
    {
      var header := ReadExact(4);
      if header.Err? {
        return Err(UnexpectedEnd);
      }
      assert forall i | 0 <= i < 4 :: header.value[i] == old(unread)[i];
      var length := ReadLE32(header.value);
      if length == 0 || length > limit {
        return Err(InvalidLength);
      }
      outcome := ReadExact(length);
      assert |old(unread)| >= 4 + length ==>
        old(unread)[4..][..length] == old(unread)[4..4 + length] && old(unread)[4..][length..] == old(unread)[4 + length..];
    }

    method WriteFrame(payload: seq<byte>, limit: nat) returns (outcome: Result<(), FrameError>)
      requires limit < 0x1_0000_0000
      modifies this
      ensures match Write(payload, limit)
              case Ok(frame) => outcome == Ok(()) && unread == old(unread) + frame
              case Err(e) => outcome == Err(e) && unread == old(unread)
    {
      if |payload| > limit {
        return Err(PayloadTooLarge);
      }
      unread := unread + LE32(|payload|);
      unread := unread + payload;
      outcome := Ok(());
    }
  }

  function Prefixed(done: seq<seq<byte>>, r: Result<(seq<seq<byte>>, seq<byte>), FrameError>):
    Result<(seq<seq<byte>>, seq<byte>), FrameError>
  {
    if r.Err? then r else Ok((done + r.value.0, r.value.1))
  }

  /** The serving loop's reads on one stream: an attempt given up, because something
      else was ready first, leaves what it took unread by anyone. */
  method ReadSeries(handle: FileHandle, attempts: seq<Attempt>, limit: nat)
    returns (outcome: Result<seq<seq<byte>>, FrameError>)
    modifies handle
    ensures match ReadAttempts(old(handle.unread), attempts, limit)
            case Ok((payloads, left)) => outcome == Ok(payloads) && handle.unread == left
            case Err(e) => outcome == Err(e)
  {
    var done := [];
    ghost var all := ReadAttempts(handle.unread, attempts, limit);
    assert attempts[0..] == attempts && (all.Ok? ==> [] + all.value.0 == all.value.0);
    for i := 0 to |attempts|
      invariant ReadAttempts(old(handle.unread), attempts, limit)
             == Prefixed(done, ReadAttempts(handle.unread, attempts[i..], limit))
    {
      assert attempts[i..][1..] == attempts[i + 1..];
      match attempts[i]
      case GivenUp(n) =>
        handle.unread := Dropped(handle.unread, n);
      case Completes =>
        ghost var before := handle.unread;
        var payload := handle.ReadFrame(limit);
        if payload.Err? {
          return Err(payload.error);
        }
        ghost var r := ReadAttempts(handle.unread, attempts[i + 1..], limit);
        assert r.Ok? ==> (done + [payload.value]) + r.value.0 == done + ([payload.value] + r.value.0);
        done := done + [payload.value];
    }
    assert attempts[|attempts|..] == [];
    assert done + [] == done;
    outcome := Ok(done);
  }

  // ---------- the Deno reader ----------

  function Concat(chunks: seq<Option<seq<byte>>>): seq<byte> {
    if chunks == [] then [] else
      Concat(chunks[..|chunks| - 1])
      + match chunks[|chunks| - 1] case None => [] case Some(c) => c
  }

  lemma ConcatOne(chunks: seq<Option<seq<byte>>>, k: nat)
    requires k < |chunks|
    ensures Concat(chunks[..k + 1]) == Concat(chunks[..k]) + match chunks[k] case None => [] case Some(c) => c
  {
    assert chunks[..k + 1][..k] == chunks[..k];
  }

  lemma {:induction false} ConcatPrefix(chunks: seq<Option<seq<byte>>>, j: nat, k: nat)
    requires j <= k <= |chunks|
    ensures Concat(chunks[..j]) <= Concat(chunks[..k])
    decreases k
  {
    if j < k {
      ConcatPrefix(chunks, j, k - 1);
      ConcatOne(chunks, k - 1);
    }
  }

  /** Some number of chunks makes up the frame of `payload` exactly. */
  ghost predicate Framed(chunks: seq<Option<seq<byte>>>, payload: seq<byte>) {
    && 1 <= |payload| && |payload| + 4 <= DENO_LIMIT
    && exists k :: 0 <= k <= |chunks| && Concat(chunks[..k]) == Frame(payload)
  }

  /** Bytes that are not a whole frame but may still become one. */
  predicate Partial(bytes: seq<byte>) {
    && |bytes| <= DENO_LIMIT
    && (|bytes| >= 4 ==> 1 <= ReadLE32(bytes) <= DENO_LIMIT && |bytes| < ReadLE32(bytes) + 4)
  }

  lemma PrefixOfFrame(bytes: seq<byte>, payload: seq<byte>)
    requires 1 <= |payload| && |payload| + 4 <= DENO_LIMIT && bytes <= Frame(payload)
    ensures Partial(bytes) <==> bytes != Frame(payload)
  {
    FrameHeader(payload, []);
    assert Frame(payload) + [] == Frame(payload);
    if |bytes| >= 4 {
      assert forall i | 0 <= i < 4 :: bytes[i] == Frame(payload)[i];
    }
  }

  lemma PrefixPartial(a: seq<byte>, b: seq<byte>)
    requires a <= b && Partial(b)
    ensures Partial(a)
  {
    if |a| >= 4 {
      assert forall i | 0 <= i < 4 :: a[i] == b[i];
    }
  }

  lemma PartialSoFar(chunks: seq<Option<seq<byte>>>, i: nat)
    requires i <= |chunks|
    ensures Partial(Concat(chunks)) ==> Partial(Concat(chunks[..i]))
  {
    assert chunks[..|chunks|] == chunks;
    ConcatPrefix(chunks, i, |chunks|);
    if Partial(Concat(chunks)) {
      PrefixPartial(Concat(chunks[..i]), Concat(chunks));
    }
  }

  /** While the chunks so far are partial, none of them completed a frame. */
  lemma NotYetFramed(chunks: seq<Option<seq<byte>>>, payload: seq<byte>, i: nat, k: nat)
    requires k <= i <= |chunks| && Partial(Concat(chunks[..i]))
    requires 1 <= |payload| && |payload| + 4 <= DENO_LIMIT
    ensures Concat(chunks[..k]) != Frame(payload)
  {
    ConcatPrefix(chunks, k, i);
    PrefixPartial(Concat(chunks[..k]), Concat(chunks[..i]));
    if Concat(chunks[..k]) == Frame(payload) {
      PrefixOfFrame(Frame(payload), payload);
    }
  }

  /** The first chunk after which the bytes are no longer partial decides the matter. */
  lemma Decided(chunks: seq<Option<seq<byte>>>, i: nat, payload: seq<byte>)
    requires i < |chunks| && Partial(Concat(chunks[..i])) && !Partial(Concat(chunks[..i + 1]))
    requires 1 <= |payload| && |payload| + 4 <= DENO_LIMIT
    ensures Framed(chunks, payload) <==> Concat(chunks[..i + 1]) == Frame(payload)
  {
    if Framed(chunks, payload) {
      var k :| 0 <= k <= |chunks| && Concat(chunks[..k]) == Frame(payload);
      if k <= i {
        NotYetFramed(chunks, payload, i, k);
      } else {
        ConcatPrefix(chunks, i + 1, k);
        PrefixOfFrame(Concat(chunks[..i + 1]), payload);
      }
    }
  }

  lemma Undecided(chunks: seq<Option<seq<byte>>>, payload: seq<byte>)
    requires Partial(Concat(chunks))
    ensures !Framed(chunks, payload)
  {
    assert chunks[..|chunks|] == chunks;
    if Framed(chunks, payload) {
      var k :| 0 <= k <= |chunks| && Concat(chunks[..k]) == Frame(payload);
      NotYetFramed(chunks, payload, |chunks|, k);
    }
  }

  /** What the reader makes of bytes that are no longer partial. */
  function Verdict(bytes: seq<byte>): Result<seq<byte>, FrameError> {
    if |bytes| > DENO_LIMIT || |bytes| < 4 then Err(ResponseTooLarge)
    else if ReadLE32(bytes) == 0 || ReadLE32(bytes) > DENO_LIMIT then Err(InvalidLength)
    else if |bytes| > ReadLE32(bytes) + 4 then Err(TrailingBytes)
    else Ok(bytes[4..])
  }

  lemma VerdictIsRight(chunks: seq<Option<seq<byte>>>, i: nat, payload: seq<byte>)
    requires i < |chunks| && Partial(Concat(chunks[..i])) && !Partial(Concat(chunks[..i + 1]))
    ensures Verdict(Concat(chunks[..i + 1])) == Ok(payload) <==> Framed(chunks, payload)
  {
    var bytes := Concat(chunks[..i + 1]);
    if 1 <= |payload| && |payload| + 4 <= DENO_LIMIT {
      Decided(chunks, i, payload);
      if bytes == Frame(payload) {
        FrameHeader(payload, []);
        assert bytes + [] == bytes;
      }
      if Verdict(bytes) == Ok(payload) {
        LE32Canonical(bytes);
        assert bytes == bytes[..4] + bytes[4..];
      }
    }
  }

  /** Reads chunks until they hold one frame. `None` is a read with no value; the end
      of the list is the end of the stream. Whatever the chunks, it returns a payload
      exactly when some number of them is that payload's frame, within the limit. */
  method ReadFramedResponse(chunks: seq<Option<seq<byte>>>) returns (outcome: Result<seq<byte>, FrameError>)
    ensures forall payload :: outcome == Ok(payload) <==> Framed(chunks, payload)
    // It waits for more exactly while a frame may still come of the bytes so far.
    ensures outcome == Err(UnexpectedEnd) <==> Partial(Concat(chunks))
  {
    var buffered := [];
    var totalBytes := 0;
    var expectedLength: Option<nat> := None;
    for i := 0 to |chunks|
      invariant buffered == Concat(chunks[..i]) && totalBytes == |buffered| && Partial(buffered)
      invariant expectedLength == if |buffered| >= 4 then Some(ReadLE32(buffered)) else None
    {
      ConcatOne(chunks, i);
      if chunks[i].None? {
        continue;
      }
      var chunk := chunks[i].value;
      ghost var now := Concat(chunks[..i + 1]);
      forall payload | !Partial(now) ensures Verdict(now) == Ok(payload) <==> Framed(chunks, payload) {
        VerdictIsRight(chunks, i, payload);
      }
      PartialSoFar(chunks, i + 1);
      totalBytes := totalBytes + |chunk|;
      if totalBytes > DENO_LIMIT {
        return Err(ResponseTooLarge);
      }
      assert |buffered| >= 4 ==> forall k | 0 <= k < 4 :: now[k] == buffered[k];
      buffered := buffered + chunk;
      if expectedLength.None? && |buffered| >= 4 {
        expectedLength := Some(ReadLE32(buffered));
        if expectedLength.value == 0 || expectedLength.value > DENO_LIMIT {
          return Err(InvalidLength);
        }
      }
      if expectedLength.Some? {
        if |buffered| < expectedLength.value + 4 {
          continue;
        }
        if |buffered| > expectedLength.value + 4 {
          return Err(TrailingBytes);
        }
        return Ok(buffered[4..]);
      }
    }
    assert chunks[..|chunks|] == chunks;
    forall payload ensures !Framed(chunks, payload) {
      Undecided(chunks, payload);
    }
    outcome := Err(UnexpectedEnd);
  }

  /** However one frame is cut into chunks, the reader returns its payload; longer
      frames than fit the limit with their header are never returned. */
  lemma ChunksDoNotMatter(chunks: seq<Option<seq<byte>>>, payload: seq<byte>)
    requires |payload| < 0x1_0000_0000 && Concat(chunks) == Frame(payload)
    ensures Framed(chunks, payload) <==> 1 <= |payload| <= 16380
  {
    assert chunks[..|chunks|] == chunks;
  }
}
