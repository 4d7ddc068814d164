/** The store as an object: reading, writing and clearing change its file and keychain. */
module ConfigStore {
  import opened Wrappers
  import opened C = ConfigState

  class ConfigStore {
    var file: Entry
    var keychain: map<string, Secret>

    ghost function Stored(): Store
      reads this
    {
      Store(file, keychain)
    }

    constructor (file: Entry, keychain: map<string, Secret>)
      ensures Stored() == Store(file, keychain)
    {
      this.file, this.keychain := file, keychain;
    }

    method DeleteSharedKey(user: string, sys: System)
      modifies this`keychain
      ensures keychain == Without(old(keychain), user, sys)
    {
      if user == "" {
        return;
      }
      if sys.keychainSupported && sys.keychainDeletes {
        keychain := keychain - {user};
      }
    }

    method Clear(sys: System)
      modifies this
      ensures Stored() == ClearConfig(old(Stored()), sys)
    {
      if file.Present? {
        match file.text
        case V1(r) =>
          if r.secretSource == Some(Keychain) && r.username != "" {
            DeleteSharedKey(r.username, sys);
          }
        case Legacy(l) =>
          if l.sharedKey.Some? && l.sharedKey.value != NoSecret && l.username.Some? {
            DeleteSharedKey(l.username.value, sys);
          }
        case _ =>
      }
      file := Missing;
    }

    method ReadFile(sys: System) returns (record: Option<Record>)
      modifies this
      ensures Stored() == AfterRead(old(Stored()), sys)
      ensures record == FileRecord(old(Stored()), sys)
    {
      if file.Missing? {
        return None;
      }
      if !file.regular || file.size > MAX_SIZE || file.text.NotJson? {
        Clear(sys);
        return None;
      }
      match file.text
      case V1(r) =>
        if r.schema != SCHEMA || r.port == 0 || !ValidHost(r.host) {
          Clear(sys);
          return None;
        }
        return Some(r);
      case Legacy(l) => return Some(NormalizeLegacy(l, sys));
      case _ => return None;
    }

    // The part of a write that decides where the key goes and changes the keychain.
    method Place(existing: Option<Record>, i: Input, user: string, sys: System) returns (outcome: Result<Placed, ConfigError>)
      modifies this`keychain
      ensures outcome == PlaceSecret(old(keychain), existing, i, user, sys)
      ensures keychain == if outcome.Ok? then outcome.value.keychain
                          else if i.clearAuth && FromKeychain(existing) then Without(old(keychain), existing.value.username, sys)
                          else old(keychain)
    {
      var source := File;
      var key := NoSecret;
      if !i.clearAuth && existing.Some? {
        source := if existing.value.secretSource.Some? then existing.value.secretSource.value else File;
        key := existing.value.sharedKey;
      }
      if i.clearAuth && FromKeychain(existing) && existing.value.username != "" {
        DeleteSharedKey(existing.value.username, sys);
      }
      if i.sharedKey.Some? {
        if user != "" && sys.keychainSupported {
          if !sys.keychainWrites {
            return Err(KeychainFailed);
          }
          keychain := keychain[user := Encoded(i.sharedKey.value)];
          source := Keychain;
          key := NoSecret;
        } else {
          source := File;
          key := Encoded(i.sharedKey.value);
        }
      } else if i.allowEmpty && FromKeychain(existing) && user != "" {
        DeleteSharedKey(user, sys);
        key := NoSecret;
        source := Keychain;
      }
      outcome := Ok(Placed(keychain, key, source));
    }

    method Write(i: Input, sys: System) returns (outcome: Result<Record, ConfigError>)
      modifies this
      ensures (Stored(), outcome) == WriteConfig(old(Stored()), i, sys)
    {
      if !sys.directoryReady {
        return Err(InvalidConfig);
      }
      var existing := ReadFile(sys);
      var port := PortOf(i, existing);
      var host := HostOf(i, existing);
      var user := UsernameOf(i, existing);
      if port == 0 || !ValidHost(host) {
        return Err(InvalidParam);
      }
      if !i.allowEmpty && user == "" {
        return Err(InvalidConfig);
      }
      var placing := Place(existing, i, user, sys);
      if placing.Err? {
        return Err(placing.error);
      }
      var placed := placing.value;
      if !i.allowEmpty && placed.source == File && placed.key == NoSecret {
        return Err(InvalidConfig);
      }
      var record := Build(existing, i, user, placed, sys);
      if sys.sizeOf(record) > MAX_SIZE {
        return Err(InvalidConfig);
      }
      if !sys.diskWrites {
        return Err(InvalidConfig);
      }
      file := Present(true, sys.sizeOf(record), V1(record));
      outcome := Ok(record);
    }

    method Read(o: Options, sys: System) returns (outcome: Result<Runtime, ConfigError>)
      modifies this
      ensures (Stored(), outcome) == ReadConfig(old(Stored()), o, sys)
    {
      var found := ReadFile(sys);
      if found.None? {
        return if o.requireAuth then Err(InvalidConfig) else Ok(DefaultRuntime());
      }
      var r := found.value;
      if r.port == 0 || !ValidHost(r.host) {
        Clear(sys);
        return if o.requireAuth then Err(InvalidConfig) else Ok(DefaultRuntime());
      }
      if Stale(r.createdAt, o.maxAgeMs, sys.now) && !o.ignoreExpiry {
        Clear(sys);
        return if o.requireAuth then Err(InvalidSession) else Ok(View(r, 0));
      }
      var secret := LookUp(r, keychain, sys);
      if secret.Garbled? {
        Clear(sys);
        return Err(InvalidConfig);
      }
      var key := if secret.Encoded? then secret.value else 0;
      if o.requireAuth && (r.username == "" || key == 0) {
        Clear(sys);
        return Err(InvalidSession);
      }
      return Ok(View(r, key));
    }
  }
}
