/** A written session is read back, and what the daemon's metadata writes do to it. */
module ConfigTheorems {
  import opened Wrappers
  import opened C = ConfigState

  /** The input names a user and a key, and the record's time is renewed. */
  predicate SavesSession(s: Store, i: Input, sys: System) {
    && i.username.Some? && i.username.value != ""
    && i.sharedKey.Some? && i.sharedKey.value > 0
    && (i.refreshCreatedAt || i.clearAuth || FileRecord(s, sys).None?)
  }

  /** The value given, else the one recorded before, else the default. */
  function Chosen<T>(given: Option<T>, recorded: Option<T>, default_: T): T {
    if given.Some? then given.value else if recorded.Some? then recorded.value else default_
  }

  /** What a read says beside user and key is what the write was given: host, port and
      mode, where it was not what was recorded before, or the default; each launch and
      bridge field as given, or as recorded unless its group was reset; and the time. */
  predicate SaysWhatWasGiven(read: Runtime, i: Input, existing: Option<Record>, now: int) {
    var usable := if i.host.Some? && ValidHost(i.host.value) then i.host else None;
    && read.port == Chosen(i.port, if existing.Some? then Some(existing.value.port) else None, 10000)
    && read.host == Chosen(usable, if existing.Some? then Some(existing.value.host) else None, "127.0.0.1")
    && read.mode == Chosen(i.mode, if existing.Some? then Some(existing.value.mode) else None, Auto)
    && read.createdAt == At(now)
    && forall f: Field ::
         var reset := if f.LaunchStatus? || f.LaunchError? || f.LaunchStrategy? then i.resetLaunch else i.resetBridge;
         if f in i.metadata then f in read.metadata && read.metadata[f] == i.metadata[f]
         else if existing.Some? && f in existing.value.metadata && !reset then
           f in read.metadata && read.metadata[f] == existing.value.metadata[f]
         else f !in read.metadata
  }

  /** A session written successfully is what a reader requiring one gets, with all
      else the write was given, exactly while the clock stays between the time of the
      write and the age limit (unless expiry is ignored) and, when the key went to
      the keychain, the keychain can be read. */
  lemma SessionRoundTrip(s: Store, i: Input, sys: System, o: Options, later: System)
    requires SavesSession(s, i, sys) && o.requireAuth
    requires WriteConfig(s, i, sys).1.Ok?
    ensures var (s1, written) := WriteConfig(s, i, sys);
            var read := ReadConfig(s1, o, later).1;
            (read.Ok? && read.value.username == i.username.value && read.value.sharedKey == i.sharedKey.value
             && SaysWhatWasGiven(read.value, i, FileRecord(s, sys), sys.now))
            <==>
            (o.ignoreExpiry || 0 <= later.now - sys.now <= o.maxAgeMs)
            && (sys.keychainSupported ==> later.keychainSupported && later.keychainReads)
  {
    var (s1, written) := WriteConfig(s, i, sys);
    assert s1.file == Present(true, sys.sizeOf(written.value), V1(written.value));
    assert ValidRecord(written.value);
    assert FileRecord(s1, later) == Some(written.value);
    assert written.value.createdAt == At(sys.now);
    var r := written.value;
    assert SaysWhatWasGiven(Runtime(r.port, r.host, r.username, i.sharedKey.value, r.mode, r.metadata, r.createdAt),
                            i, FileRecord(s, sys), sys.now);
  }

  /** No successful write, of any shape, is rejected by the reader's checks. */
  lemma WrittenIsAccepted(s: Store, i: Input, sys: System, later: System)
    requires WriteConfig(s, i, sys).1.Ok?
    ensures var (s1, written) := WriteConfig(s, i, sys);
            !Rejected(s1) && FileRecord(s1, later) == Some(written.value)
  {
  }

  // ---------- the daemon's metadata writes ----------

  /** The shape of the writes that record launch and bridge status. */
  predicate MetadataWrite(i: Input) {
    i.username.None? && i.sharedKey.None? && i.allowEmpty && !i.clearAuth && !i.refreshCreatedAt
  }

  /** The session a reader requiring one finds, whatever its age. */
  function Session(s: Store, sys: System): Option<(string, nat)> {
    match ReadConfig(s, Options(true, 0, true), sys).1
    case Ok(r) => Some((r.username, r.sharedKey))
    case Err(_) => None
  }

  predicate HoldsRecord(s: Store, r: Record) {
    s.file.Present? && s.file.regular && s.file.size <= MAX_SIZE && s.file.text == V1(r) && ValidRecord(r)
  }

  /** What a metadata write needs before it touches the keychain. */
  predicate Reaches(i: Input, sys: System) {
    sys.directoryReady && i.port != Some(0)
  }

  /** What it then needs to replace the file. */
  predicate Lands(r: Record, i: Input, sys: System) {
    && Reaches(i, sys) && sys.diskWrites
    && sys.sizeOf(MetadataRecord(r, i)) <= MAX_SIZE
  }

  function MetadataRecord(r: Record, i: Input): Record {
    Record(1, if i.port.Some? then i.port.value else r.port,
           if i.host.Some? && ValidHost(i.host.value) then i.host.value else r.host, r.username,
           if r.secretSource == Some(Keychain) && r.username != "" then NoSecret else r.sharedKey,
           if i.mode.Some? then i.mode.value else r.mode,
           Some(if r.secretSource.Some? then r.secretSource.value else File),
           MergedMetadata(r.metadata, i), r.createdAt)
  }

  /** Does the write delete the user's keychain entry? */
  predicate Deletes(r: Record, i: Input, sys: System) {
    Reaches(i, sys) && r.secretSource == Some(Keychain) && sys.keychainSupported && sys.keychainDeletes
  }

  predicate InKeychain(s: Store, r: Record, reader: System) {
    reader.keychainSupported && reader.keychainReads && r.username in s.keychain
  }

  lemma MetadataWriteIs(s: Store, r: Record, i: Input, sys: System)
    requires FileRecord(s, sys) == Some(r) && ValidHost(r.host) && r.port != 0 && r.username != "" && MetadataWrite(i)
    ensures WriteConfig(s, i, sys).1.Ok? <==> Lands(r, i, sys)
    ensures WriteConfig(s, i, sys).0 == Store(
      if Lands(r, i, sys) then Present(true, sys.sizeOf(MetadataRecord(r, i)), V1(MetadataRecord(r, i))) else s.file,
      if Deletes(r, i, sys) then s.keychain - {r.username} else s.keychain)
  {
  }

  /** A metadata write, whether it succeeds or fails, leaves a later reader the session
      it would have had exactly when the key is in the file; or the write succeeds, the
      record names the keychain, and the key is found there and not deleted; or the
      write fails and deletes nothing, or nothing that this reader would have used. */
  lemma MetadataWriteKeepsSessionExactly(s: Store, r: Record, i: Input, sys: System, reader: System)
    requires FileRecord(s, sys) == Some(r) && MetadataWrite(i) && Session(s, reader).Some?
    ensures Session(WriteConfig(s, i, sys).0, reader) == Session(s, reader)
       <==> SourceOf(r) == File
            || (Lands(r, i, sys) && r.secretSource == Some(Keychain) && InKeychain(s, r, reader) && !Deletes(r, i, sys))
            || (!Lands(r, i, sys)
                && (!Deletes(r, i, sys) || !InKeychain(s, r, reader) || r.sharedKey == s.keychain[r.username]))
  {
    var was := FileRecord(s, reader).value;
    assert was == r.(createdAt := was.createdAt);
    MetadataWriteIs(s, r, i, sys);
    var s1 := WriteConfig(s, i, sys).0;
    if Lands(r, i, sys) {
      assert FileRecord(s1, reader) == Some(MetadataRecord(r, i));
    } else {
      assert FileRecord(s1, reader) == Some(was);
    }
  }

  /** A keychain session of a user "u" and a bare status write. */
  lemma StatusWrite(diskWrites: bool) returns (s: Store, i: Input, sys: System)
    ensures sys.diskWrites == diskWrites && MetadataWrite(i) && Session(s, sys) == Some(("u", 7))
    ensures WriteConfig(s, i, sys).1.Ok? <==> diskWrites
    ensures Session(WriteConfig(s, i, sys).0, sys).None?
  {
    sys := System(0, true, true, true, true, true, diskWrites, _ => 100);
    assert DEFAULT_HOST[0] == '1';
    var r := Record(SCHEMA, DEFAULT_PORT, DEFAULT_HOST, "u", NoSecret, Auto, Some(Keychain), map[], At(0));
    s := Store(Present(true, 100, V1(r)), map["u" := Encoded(7)]);
    i := Input(None, None, None, None, true, false, None, map[BridgeStatus := "attached"], true, true, false);
    assert ValidRecord(r) && FileRecord(s, sys) == Some(r) && Session(s, sys) == Some(("u", 7));
    MetadataWriteIs(s, r, i, sys);
  }

  /** With a working system the session is gone, though the write succeeds. */
  lemma StatusWriteLosesKeychainSession()
    ensures exists s: Store, i: Input, sys: System ::
              MetadataWrite(i) && Session(s, sys) == Some(("u", 7))
              && WriteConfig(s, i, sys).1.Ok? && Session(WriteConfig(s, i, sys).0, sys).None?
  {
    var s, i, sys := StatusWrite(true);
  }

  /** When the file cannot be written the write fails, and the session is gone too:
      the key was deleted first. */
  lemma FailedStatusWriteLosesKeychainSession()
    ensures exists s: Store, i: Input, sys: System ::
              MetadataWrite(i) && Session(s, sys) == Some(("u", 7))
              && WriteConfig(s, i, sys).1.Err? && Session(WriteConfig(s, i, sys).0, sys).None?
  {
    var s, i, sys := StatusWrite(false);
  }

  predicate FileBacked(r: Record) {
    r.secretSource == Some(File) || (r.secretSource.None? && r.sharedKey != NoSecret)
  }

  datatype Write = Write(input: Input, sys: System)

  function WriteAll(s: Store, ws: seq<Write>): Store {
    if ws == [] then s
    else WriteConfig(WriteAll(s, ws[..|ws| - 1]), ws[|ws| - 1].input, ws[|ws| - 1].sys).0
  }

  predicate Succeeds(s: Store, ws: seq<Write>, k: nat)
    requires k < |ws|
  {
    WriteConfig(WriteAll(s, ws[..k]), ws[k].input, ws[k].sys).1.Ok?
  }

  /** The last value supplied for a field by the successful writes since it was last
      reset; the value in the first record if none did either. */
  function LastSupplied(s: Store, first: Metadata, ws: seq<Write>, f: Field): Option<string> {
    if ws == [] then (if f in first then Some(first[f]) else None) else
      var n := |ws| - 1;
      var i := ws[n].input;
      if !Succeeds(s, ws, n) then LastSupplied(s, first, ws[..n], f)
      else if f in i.metadata then Some(i.metadata[f])
      else if (if f.LaunchStatus? || f.LaunchError? || f.LaunchStrategy? then i.resetLaunch else i.resetBridge) then None
      else LastSupplied(s, first, ws[..n], f)
  }

  lemma MetadataWriteStep(s: Store, r: Record, w: Write) returns (now: Record)
    requires HoldsRecord(s, r) && FileBacked(r) && MetadataWrite(w.input)
    ensures var (after, outcome) := WriteConfig(s, w.input, w.sys);
            && HoldsRecord(after, now) && FileBacked(now) && after.keychain == s.keychain
            && now.username == r.username && now.sharedKey == r.sharedKey && now.createdAt == r.createdAt
            && now.metadata == if outcome.Ok? then MergedMetadata(r.metadata, w.input) else r.metadata
  {
    assert FileRecord(s, w.sys) == Some(r) && !Rejected(s);
    var (after, outcome) := WriteConfig(s, w.input, w.sys);
    now := if outcome.Ok? then outcome.value else r;
  }

  /** Over any run of metadata writes on a file-backed session, whether each succeeds
      or fails, user, key, creation time and keychain stay, and every launch and bridge
      field is the last value supplied since its last reset. */
  lemma {:induction false} MetadataRunKeepsSession(s: Store, r: Record, ws: seq<Write>) returns (now: Record)
    requires HoldsRecord(s, r) && FileBacked(r)
    requires forall k | 0 <= k < |ws| :: MetadataWrite(ws[k].input)
    ensures HoldsRecord(WriteAll(s, ws), now) && FileBacked(now)
    ensures now.username == r.username && now.sharedKey == r.sharedKey && now.createdAt == r.createdAt
    ensures WriteAll(s, ws).keychain == s.keychain
    ensures forall f :: LastSupplied(s, r.metadata, ws, f) == if f in now.metadata then Some(now.metadata[f]) else None
    decreases |ws|
  {
    if ws == [] {
      now := r;
    } else {
      var n := |ws| - 1;
      var before := MetadataRunKeepsSession(s, r, ws[..n]);
      now := MetadataWriteStep(WriteAll(s, ws[..n]), before, ws[n]);
    }
  }
}
