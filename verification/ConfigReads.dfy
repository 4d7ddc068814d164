/** What a read returns and what it leaves behind, and where a write puts the key. */
module ConfigReads {
  import opened Wrappers
  import opened C = ConfigState

  // ---------- what a read leaves ----------

  /** A file no reader accepts: not a regular file, too long, not JSON, or a record of
      the wrong version, with port 0 or with an unusable host. */
  predicate Unusable(e: Entry) {
    e.Present?
    && (!e.regular || e.size > 10240
        || match e.text
           case NotJson => true
           case V1(r) => r.schema != 1 || r.port == 0 || !ValidHost(r.host)
           case Legacy(l) => l.port == Some(0) || (l.host.Some? && !ValidHost(l.host.value))
           case OtherJson => false)
  }

  /** Outside the age limit: its time cannot be read, lies ahead, or is too far back. */
  predicate Expired(createdAt: Stamp, o: Options, sys: System) {
    !o.ignoreExpiry && !(createdAt.At? && 0 <= sys.now - createdAt.ms <= o.maxAgeMs)
  }

  /** Does the file vouch for this user's keychain entry? */
  predicate Owns(text: Text, user: string) {
    match text
    case V1(r) => r.secretSource == Some(Keychain) && r.username == user
    case Legacy(l) => l.sharedKey.Some? && l.sharedKey.value != NoSecret && l.username == Some(user)
    case _ => false
  }

  /** The file is gone, and with it exactly the keychain entry it owned, if entries can
      be deleted; every other entry is as it was. */
  ghost predicate Removed(s: Store, s1: Store, sys: System) {
    && s.file.Present? && s1.file.Missing?
    && forall user :: (user in s1.keychain
           <==> user in s.keychain
                && !(user != "" && Owns(s.file.text, user) && sys.keychainSupported && sys.keychainDeletes))
         && (user in s1.keychain ==> s1.keychain[user] == s.keychain[user])
  }

  lemma DefaultHostIsValid()
    ensures ValidHost(DEFAULT_HOST)
  {
    assert DEFAULT_HOST[0] == '1';
  }

  /** An accepted record is the file's, and its port and host pass the reader's checks. */
  lemma AcceptedIsUsable(s: Store, r: Record, sys: System)
    requires FileRecord(s, sys) == Some(r)
    ensures Unusable(s.file) <==> r.port == 0 || !ValidHost(r.host)
    ensures !Rejected(s)
  {
    DefaultHostIsValid();
  }

  lemma ClearRemoves(s: Store, sys: System)
    requires s.file.Present?
    ensures Removed(s, ClearConfig(s, sys), sys)
  {
  }

  /** A read either leaves the store as it was or removes the file; it removes it
      exactly when no reader accepts it, or it holds a record that has expired or that
      this read reports as an error. */
  lemma ReadLeaves(s: Store, o: Options, sys: System)
    ensures var (s1, outcome) := ReadConfig(s, o, sys);
            var found := FileRecord(s, sys);
            && (s1 == s || Removed(s, s1, sys))
            && (s1 != s <==> Unusable(s.file) || (found.Some? && (Expired(found.value.createdAt, o, sys) || outcome.Err?)))
  {
    if s.file.Present? {
      ClearRemoves(s, sys);
      if FileRecord(s, sys).Some? {
        AcceptedIsUsable(s, FileRecord(s, sys).value, sys);
      }
      assert ClearConfig(s, sys) != s;
    }
  }

  /** After a read that found the record expired, whoever reads next, and however, finds
      no session: a reader requiring one gets an error, any other the defaults. */
  lemma ExpiredIsGone(s: Store, r: Record, o: Options, sys: System, next: Options, later: System)
    requires FileRecord(s, sys) == Some(r) && Expired(r.createdAt, o, sys)
    ensures ReadConfig(ReadConfig(s, o, sys).0, next, later).1 ==
            if next.requireAuth then Err(InvalidConfig) else Ok(Runtime(10000, "127.0.0.1", "", 0, Auto, map[], At(0)))
  {
    ReadLeaves(s, o, sys);
  }

  // ---------- what a read returns ----------

  /** The key a record leads to: its own text, unless it points to the keychain, where a
      readable entry of its user comes first and a record without a user has none. */
  ghost predicate LeadsTo(r: Record, keychain: map<string, Secret>, sys: System, key: Secret) {
    var inKeychain := r.secretSource == Some(Keychain) || (r.secretSource.None? && r.sharedKey == NoSecret);
    var readable := sys.keychainSupported && sys.keychainReads && r.username in keychain;
    && (!inKeychain ==> key == r.sharedKey)
    && (inKeychain && r.username == "" ==> key == NoSecret)
    && (inKeychain && r.username != "" ==> key == if readable then keychain[r.username] else r.sharedKey)
  }

  /** What a read makes of an accepted record: everything the record says, with its key,
      or without one once expired; and exactly when it is an error instead. */
  lemma ReadGives(s: Store, r: Record, key: Secret, o: Options, sys: System)
    requires FileRecord(s, sys) == Some(r) && !Unusable(s.file) && LeadsTo(r, s.keychain, sys, key)
    ensures var outcome := ReadConfig(s, o, sys).1;
            var n := if Expired(r.createdAt, o, sys) || !key.Encoded? then 0 else key.value;
            if Expired(r.createdAt, o, sys) && o.requireAuth then outcome == Err(InvalidSession)
            else if !Expired(r.createdAt, o, sys) && key == Garbled then outcome == Err(InvalidConfig)
            else if o.requireAuth && (r.username == "" || n == 0) then outcome == Err(InvalidSession)
            else outcome == Ok(Runtime(r.port, r.host, r.username, n, r.mode, r.metadata, r.createdAt))
  {
    AcceptedIsUsable(s, r, sys);
    assert key == LookUp(r, s.keychain, sys);
  }

  /** Without an accepted record a reader requiring a session gets an error and any
      other the defaults. */
  lemma ReadWithoutRecord(s: Store, o: Options, sys: System)
    requires FileRecord(s, sys).None? || Unusable(s.file)
    ensures ReadConfig(s, o, sys).1 ==
            if o.requireAuth then Err(InvalidConfig) else Ok(Runtime(10000, "127.0.0.1", "", 0, Auto, map[], At(0)))
  {
    if FileRecord(s, sys).Some? {
      AcceptedIsUsable(s, FileRecord(s, sys).value, sys);
    }
  }

  /** Which files hold a record. */
  lemma RecordFound(s: Store, sys: System)
    ensures FileRecord(s, sys).Some? ==> s.file.Present? && (s.file.text.V1? || s.file.text.Legacy?)
    ensures s.file.Present? && !Unusable(s.file) && s.file.text.V1? ==> FileRecord(s, sys) == Some(s.file.text.record)
    ensures s.file.Present? && !Unusable(s.file) && s.file.text.Legacy? ==>
      FileRecord(s, sys).Some?
      && var (l, r) := (s.file.text.legacy, FileRecord(s, sys).value);
         && r.schema == 1 && r.mode == Auto && r.metadata == map[]
         && r.port == (if l.port.Some? then l.port.value else 10000)
         && r.host == (if l.host.Some? then l.host.value else "127.0.0.1")
         && r.username == (if l.username.Some? then l.username.value else "")
         && (l.sharedKey.Some? && l.sharedKey.value != NoSecret ==>
               r.sharedKey == l.sharedKey.value && r.secretSource == Some(File))
         && (l.sharedKey.None? || l.sharedKey.value == NoSecret ==> r.sharedKey == NoSecret && r.secretSource.None?)
         && r.createdAt == (if l.createdAt.Some? then l.createdAt.value else At(sys.now))
  {
  }

  // ---------- what a write leaves ----------

  /** A write that fails leaves the file as it was, unless no reader accepted it. */
  lemma FailedWriteKeepsFile(s: Store, i: Input, sys: System)
    requires WriteConfig(s, i, sys).1.Err?
    ensures WriteConfig(s, i, sys).0.file == s.file || (Unusable(s.file) && WriteConfig(s, i, sys).0.file.Missing?)
  {
  }

  /** The port and host a write would record. */
  predicate Addressable(i: Input, existing: Option<Record>) {
    && (match i.port case Some(p) => p != 0 case None => existing.Some? ==> existing.value.port != 0)
    && ((i.host.Some? && ValidHost(i.host.value)) || (existing.Some? ==> ValidHost(existing.value.host)))
  }

  /** A user to record, and a key for that user: given, or recorded before and not cleared. */
  predicate Complete(i: Input, existing: Option<Record>) {
    && (if i.username.Some? then i.username.value != "" else !i.clearAuth && existing.Some? && existing.value.username != "")
    && (i.sharedKey.Some?
        || (!i.clearAuth && existing.Some?
            && (existing.value.sharedKey != NoSecret || existing.value.secretSource == Some(Keychain))))
  }

  predicate NeedsKeychain(i: Input, existing: Option<Record>, sys: System) {
    && i.sharedKey.Some? && sys.keychainSupported
    && (if i.username.Some? then i.username.value != "" else !i.clearAuth && existing.Some? && existing.value.username != "")
  }

  lemma KnownUser(s: Store, i: Input, sys: System)
    ensures var existing := FileRecord(s, sys);
            UsernameOf(i, existing) != "" <==>
            if i.username.Some? then i.username.value != "" else !i.clearAuth && existing.Some? && existing.value.username != ""
    ensures var existing := FileRecord(s, sys);
            PortOf(i, existing) != 0 && ValidHost(HostOf(i, existing)) <==> Addressable(i, existing)
  {
    DefaultHostIsValid();
  }

  /** When a write fails, and how. It needs the directory; then a port and a host; then,
      unless an empty session is allowed, a user; then the keychain, if a key is to go
      there; then, unless an empty session is allowed, a key; and last a record that is
      not too long and a file that can be written. */
  lemma WriteFailsExactly(s: Store, i: Input, sys: System)
    ensures var (existing, outcome) := (FileRecord(s, sys), WriteConfig(s, i, sys).1);
            var whole := i.allowEmpty || Complete(i, existing);
            && (outcome == Err(InvalidParam) <==> sys.directoryReady && !Addressable(i, existing))
            && (outcome == Err(KeychainFailed) <==>
                  sys.directoryReady && Addressable(i, existing) && NeedsKeychain(i, existing, sys) && !sys.keychainWrites)
            && (outcome.Ok? ==> sys.directoryReady && Addressable(i, existing) && whole && sys.diskWrites
                                && sys.sizeOf(outcome.value) <= 10240)
            && (outcome == Err(InvalidConfig) ==> !sys.directoryReady || !whole || !sys.diskWrites || exists r :: sys.sizeOf(r) > 10240)
            && (outcome.Err? ==> outcome.error != InvalidSession)
  {
    KnownUser(s, i, sys);
    DefaultHostIsValid();
  }

  /** A new key goes to one place: the keychain, if there is one, and then not into the
      file; else the file, and then not into the keychain. */
  lemma KeyIsInOnePlace(s: Store, i: Input, sys: System)
    requires WriteConfig(s, i, sys).1.Ok? && i.sharedKey.Some? && i.username.Some? && i.username.value != ""
    ensures var (s1, written) := (WriteConfig(s, i, sys).0, WriteConfig(s, i, sys).1.value);
            var (user, key) := (i.username.value, Encoded(i.sharedKey.value));
            && s1.file.Present? && s1.file.text == V1(written) && written.username == user
            && (sys.keychainSupported ==>
                  written.secretSource == Some(Keychain) && written.sharedKey == NoSecret
                  && user in s1.keychain && s1.keychain[user] == key)
            && (!sys.keychainSupported ==>
                  written.secretSource == Some(File) && written.sharedKey == key
                  && (user in s1.keychain ==> user in s.keychain && s1.keychain[user] == s.keychain[user]))
  {
  }

  /** The record points to the keychain exactly when the new key went there, or, without
      a new key, the record before did and that was neither cleared away nor, unless an
      empty session is allowed, left without a keychain. */
  lemma WhenKeychainIsNamed(s: Store, i: Input, sys: System)
    requires WriteConfig(s, i, sys).1.Ok?
    ensures var (written, existing) := (WriteConfig(s, i, sys).1.value, FileRecord(s, sys));
            var before := existing.Some? && existing.value.secretSource == Some(Keychain);
            written.secretSource == Some(if
              (i.sharedKey.Some? && written.username != "" && sys.keychainSupported)
              || (i.sharedKey.None? && before
                  && (if i.allowEmpty then written.username != "" || !i.clearAuth
                      else !i.clearAuth && sys.keychainSupported))
              then Keychain else File)
  {
    var (written, existing) := (WriteConfig(s, i, sys).1.value, FileRecord(s, sys));
    var user := UsernameOf(i, existing);
    var placed := PlaceSecret(AfterRead(s, sys).keychain, existing, i, user, sys).value;
    assert written == Build(existing, i, user, placed, sys);
    if i.sharedKey.Some? {
      assert placed.source == if user != "" && sys.keychainSupported then Keychain else File;
    } else if !FromKeychain(existing) {
      assert placed.source == File;
    } else if i.allowEmpty {
      assert written.secretSource == Some(placed.source);
      assert placed.source == Keychain <==> user != "" || !i.clearAuth;
    } else {
      assert placed.source == if i.clearAuth then File else Keychain;
    }
  }

  /** The only keychain entries a write touches are those of the user written and of
      the user recorded before. */
  lemma WriteTouchesOwnEntries(s: Store, i: Input, sys: System, other: string)
    requires !Unusable(s.file)
    requires i.username != Some(other)
    requires FileRecord(s, sys).Some? ==> other != FileRecord(s, sys).value.username
    ensures var s1 := WriteConfig(s, i, sys).0;
            (other in s1.keychain <==> other in s.keychain)
            && (other in s1.keychain ==> s1.keychain[other] == s.keychain[other])
  {
  }

  /** Clearing without new credentials leaves no session for any reader, and no keychain
      entry of the recorded user if that was where the key was and entries can be deleted. */
  lemma ClearingForgets(s: Store, r: Record, i: Input, sys: System, o: Options, later: System)
    requires FileRecord(s, sys) == Some(r) && i.clearAuth && i.username.None? && i.sharedKey.None?
    requires WriteConfig(s, i, sys).1.Ok? && o.requireAuth
    ensures var s1 := WriteConfig(s, i, sys).0;
            && ReadConfig(s1, o, later).1.Err?
            && ((r.secretSource == Some(Keychain) && r.username != "" && sys.keychainSupported && sys.keychainDeletes)
                  ==> r.username !in s1.keychain)
            && s1.file.text.record.username == "" && s1.file.text.record.sharedKey == NoSecret
  {
  }
}
