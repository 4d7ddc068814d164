/** The stored session: one file and one keychain, and what reading, writing and
    clearing make of them. JSON, base64 and dates are taken as already decoded. */
module ConfigState {
  import opened Wrappers

  const SCHEMA := 1
  const DEFAULT_PORT: nat := 10000
  const DEFAULT_HOST := "127.0.0.1"
  const MAX_SIZE: nat := 10240

  datatype SecretSource = File | Keychain

  datatype RuntimeMode = Auto | Native | Browser | Direct | Launchd | Disabled

  // A stored key: the empty text, the encoding of a number, or other text.
  datatype Secret = NoSecret | Encoded(value: nat) | Garbled

  datatype Stamp = At(ms: int) | Unreadable

  // The optional launch and bridge fields; an absent one is not in the map.
  datatype Field =
    | LaunchStatus | LaunchError | LaunchStrategy
    | BridgeStatus | BridgeBrowser | BridgeConnectedAt | BridgeLastError

  type Metadata = map<Field, string>

  predicate IsLaunch(f: Field) {
    f.LaunchStatus? || f.LaunchError? || f.LaunchStrategy?
  }

  datatype Record = Record(
    schema: int, port: nat, host: string, username: string, sharedKey: Secret, mode: RuntimeMode,
    secretSource: Option<SecretSource>, metadata: Metadata, createdAt: Stamp)

  datatype LegacyRecord = LegacyRecord(
    port: Option<nat>, host: Option<string>, username: Option<string>, sharedKey: Option<Secret>, createdAt: Option<Stamp>)

  datatype Text = NotJson | V1(record: Record) | Legacy(legacy: LegacyRecord) | OtherJson

  datatype Entry = Missing | Present(regular: bool, size: nat, text: Text)

  datatype Store = Store(file: Entry, keychain: map<string, Secret>)

  // What the system does during one operation. `sizeOf` is the length of a record's text.
  datatype System = System(
    now: int,
    keychainSupported: bool, keychainReads: bool, keychainWrites: bool, keychainDeletes: bool,
    directoryReady: bool, diskWrites: bool,
    sizeOf: Record -> nat)

  datatype ConfigError = InvalidConfig | InvalidParam | InvalidSession | KeychainFailed

  predicate ValidHost(host: string) {
    && (exists i :: 0 <= i < |host| && host[i] !in [' ', '\t', '\n', '\r'])
    && '\0' !in host
  }

  predicate ValidRecord(r: Record) {
    r.schema == SCHEMA && r.port != 0 && ValidHost(r.host)
  }

  function Without(keychain: map<string, Secret>, user: string, sys: System): map<string, Secret> {
    if user == "" || !sys.keychainSupported || !sys.keychainDeletes then keychain else keychain - {user}
  }

  function ClearConfig(s: Store, sys: System): Store {
    if s.file.Missing? then s else
      match s.file.text
      case V1(r) =>
        Store(Missing, if r.secretSource == Some(Keychain) then Without(s.keychain, r.username, sys) else s.keychain)
      case Legacy(l) =>
        var stored := l.sharedKey.Some? && l.sharedKey.value != NoSecret && l.username.Some?;
        Store(Missing, if stored then Without(s.keychain, l.username.value, sys) else s.keychain)
      case _ => Store(Missing, s.keychain)
  }

  function NormalizeLegacy(l: LegacyRecord, sys: System): Record {
    var key := if l.sharedKey.Some? then l.sharedKey.value else NoSecret;
    Record(SCHEMA,
           if l.port.Some? then l.port.value else DEFAULT_PORT,
           if l.host.Some? then l.host.value else DEFAULT_HOST,
           if l.username.Some? then l.username.value else "",
           key, Auto,
           if key != NoSecret then Some(File) else None,
           map[],
           if l.createdAt.Some? then l.createdAt.value else At(sys.now))
  }

  /** Does reading the file clear it? */
  predicate Rejected(s: Store) {
    s.file.Present?
    && (!s.file.regular || s.file.size > MAX_SIZE || s.file.text.NotJson?
        || (s.file.text.V1? && !ValidRecord(s.file.text.record)))
  }

  function AfterRead(s: Store, sys: System): Store {
    if Rejected(s) then ClearConfig(s, sys) else s
  }

  function FileRecord(s: Store, sys: System): Option<Record> {
    if s.file.Missing? || Rejected(s) then None else
      match s.file.text
      case V1(r) => Some(r)
      case Legacy(l) => Some(NormalizeLegacy(l, sys))
      case _ => None
  }

  // ---------- writing ----------

  datatype Input = Input(
    username: Option<string>, sharedKey: Option<nat>, port: Option<nat>, host: Option<string>,
    allowEmpty: bool, clearAuth: bool, mode: Option<RuntimeMode>, metadata: Metadata,
    resetLaunch: bool, resetBridge: bool, refreshCreatedAt: bool)

  function Resets(i: Input, f: Field): bool {
    if IsLaunch(f) then i.resetLaunch else i.resetBridge
  }

  function MergedMetadata(previous: Metadata, i: Input): Metadata {
    (map f | f in previous && !Resets(i, f) :: previous[f]) + i.metadata
  }

  function PortOf(i: Input, existing: Option<Record>): nat {
    if i.port.Some? then i.port.value else if existing.Some? then existing.value.port else DEFAULT_PORT
  }

  function HostOf(i: Input, existing: Option<Record>): string {
    if i.host.Some? && ValidHost(i.host.value) then i.host.value
    else if existing.Some? then existing.value.host else DEFAULT_HOST
  }

  function UsernameOf(i: Input, existing: Option<Record>): string {
    if i.username.Some? then i.username.value
    else if !i.clearAuth && existing.Some? then existing.value.username else ""
  }

  predicate FromKeychain(existing: Option<Record>) {
    existing.Some? && existing.value.secretSource == Some(Keychain)
  }

  // Where the key goes: the keychain after the write, the key text and its source in the record.
  datatype Placed = Placed(keychain: map<string, Secret>, key: Secret, source: SecretSource)

  function PlaceSecret(keychain: map<string, Secret>, existing: Option<Record>, i: Input, user: string, sys: System):
    Result<Placed, ConfigError>
  {
    var source := if !i.clearAuth && existing.Some? && existing.value.secretSource.Some?
                  then existing.value.secretSource.value else File;
    var key := if !i.clearAuth && existing.Some? then existing.value.sharedKey else NoSecret;
    var kc := if i.clearAuth && FromKeychain(existing) then Without(keychain, existing.value.username, sys) else keychain;
    if i.sharedKey.Some? then
      if user != "" && sys.keychainSupported then
        if sys.keychainWrites then Ok(Placed(kc[user := Encoded(i.sharedKey.value)], NoSecret, Keychain))
        else Err(KeychainFailed)
      else Ok(Placed(kc, Encoded(i.sharedKey.value), File))
    else if i.allowEmpty && FromKeychain(existing) && user != "" then
      Ok(Placed(Without(kc, user, sys), NoSecret, Keychain))
    else Ok(Placed(kc, key, source))
  }

  function Build(existing: Option<Record>, i: Input, user: string, placed: Placed, sys: System): Record {
    var source := if !i.allowEmpty && placed.source == Keychain && !sys.keychainSupported then File else placed.source;
    var renew := i.refreshCreatedAt || i.clearAuth || existing.None?;
    Record(SCHEMA, PortOf(i, existing), HostOf(i, existing), user, placed.key,
           if i.mode.Some? then i.mode.value else if existing.Some? then existing.value.mode else Auto,
           Some(source),
           MergedMetadata(if existing.Some? then existing.value.metadata else map[], i),
           if renew then At(sys.now) else existing.value.createdAt)
  }

  /** What `write_config` leaves and returns. A late failure keeps the keychain as changed. */
  function WriteConfig(s: Store, i: Input, sys: System): (Store, Result<Record, ConfigError>) {
    if !sys.directoryReady then (s, Err(InvalidConfig)) else
      var existing := FileRecord(s, sys);
      var s1 := AfterRead(s, sys);
      var user := UsernameOf(i, existing);
      if PortOf(i, existing) == 0 || !ValidHost(HostOf(i, existing)) then (s1, Err(InvalidParam))
      else if !i.allowEmpty && user == "" then (s1, Err(InvalidConfig))
      else match PlaceSecret(s1.keychain, existing, i, user, sys)
        case Err(e) =>
          (s1.(keychain := if i.clearAuth && FromKeychain(existing) then Without(s1.keychain, existing.value.username, sys) else s1.keychain),
           Err(e))
        case Ok(placed) =>
          var s2 := s1.(keychain := placed.keychain);
          if !i.allowEmpty && placed.source == File && placed.key == NoSecret then (s2, Err(InvalidConfig)) else
            var record := Build(existing, i, user, placed, sys);
            if sys.sizeOf(record) > MAX_SIZE || !sys.diskWrites then (s2, Err(InvalidConfig))
            else (s2.(file := Present(true, sys.sizeOf(record), V1(record))), Ok(record))
  }

  // ---------- reading ----------

  datatype Options = Options(requireAuth: bool, maxAgeMs: nat, ignoreExpiry: bool)

  datatype Runtime = Runtime(
    port: nat, host: string, username: string, sharedKey: nat, mode: RuntimeMode, metadata: Metadata, createdAt: Stamp)

  function DefaultRuntime(): Runtime {
    Runtime(DEFAULT_PORT, DEFAULT_HOST, "", 0, Auto, map[], At(0))
  }

  predicate Stale(createdAt: Stamp, maxAgeMs: nat, now: int) {
    createdAt.Unreadable? || createdAt.ms > now || now - createdAt.ms > maxAgeMs
  }

  function SourceOf(r: Record): SecretSource {
    if r.secretSource.Some? then r.secretSource.value
    else if r.sharedKey == NoSecret then Keychain else File
  }

  /** The key text the record leads to. */
  function LookUp(r: Record, keychain: map<string, Secret>, sys: System): Secret {
    if SourceOf(r) == File then r.sharedKey
    else if r.username == "" then NoSecret
    else if sys.keychainSupported && sys.keychainReads && r.username in keychain then keychain[r.username]
    else r.sharedKey
  }

  function View(r: Record, key: nat): Runtime {
    Runtime(r.port, r.host, r.username, key, r.mode, r.metadata, r.createdAt)
  }

  function ReadConfig(s: Store, o: Options, sys: System): (Store, Result<Runtime, ConfigError>) {
    var s1 := AfterRead(s, sys);
    var found := FileRecord(s, sys);
    if found.None? then (s1, if o.requireAuth then Err(InvalidConfig) else Ok(DefaultRuntime())) else
      var r := found.value;
      if r.port == 0 || !ValidHost(r.host) then
        (ClearConfig(s1, sys), if o.requireAuth then Err(InvalidConfig) else Ok(DefaultRuntime()))
      else if Stale(r.createdAt, o.maxAgeMs, sys.now) && !o.ignoreExpiry then
        (ClearConfig(s1, sys), if o.requireAuth then Err(InvalidSession) else Ok(View(r, 0)))
      else
        match LookUp(r, s1.keychain, sys)
        case Garbled => (ClearConfig(s1, sys), Err(InvalidConfig))
        case NoSecret =>
          if o.requireAuth then (ClearConfig(s1, sys), Err(InvalidSession)) else (s1, Ok(View(r, 0)))
        case Encoded(n) =>
          if o.requireAuth && (r.username == "" || n == 0) then (ClearConfig(s1, sys), Err(InvalidSession))
          else (s1, Ok(View(r, n)))
  }
}
