/** The client against a server written from RFC 5054: the hash inputs are given by
    their bytes, and the server's numbers by plain arithmetic. */
module SrpExchange {
  import opened Wrappers
  import opened M = ModArith
  import opened E = ByteEncoding
  import opened S = Srp

  // What a server computes from the user's password and the private keys.
  datatype Exchange = Exchange(
    kInput: seq<byte>, uInput: seq<byte>, xInput: seq<byte>,
    k: nat, u: nat, x: nat,
    verifier: nat, clientKey: nat, serverKey: nat,
    secret: nat, secretBytes: seq<byte>, sessionKey: nat)

  /** What the server hashes, by its bytes: modulus and generator; the padded salt and
      the hash of "username:password"; the two public keys; and the secret. */
  ghost predicate Hashes(group: Group, h: Hash, username: seq<byte>, password: seq<byte>, salt: nat, t: Exchange) {
    && IsTwoFields(t.kInput, group.prime, group.generator, group.width) && t.k == FromBytes(h(t.kInput))
    && IsPasswordInput(t.xInput, h, salt, username, password, group.width) && t.x == FromBytes(h(t.xInput))
    && IsTwoFields(t.uInput, t.clientKey, t.serverKey, group.width) && t.u == FromBytes(h(t.uInput))
    && Canonical(t.secretBytes) && FromBytes(t.secretBytes) == t.secret
    && t.sessionKey == FromBytes(h(t.secretBytes))
  }

  /** The server's numbers. */
  ghost predicate Numbers(n: nat, g: nat, a: nat, b: nat, t: Exchange)
    requires n > 0
  {
    && t.verifier == Pow(g, t.x) % n
    && t.clientKey == Pow(g, a) % n
    && t.serverKey == (t.k * t.verifier + Pow(g, b)) % n
    && t.secret == Pow(t.clientKey * Pow(t.verifier, t.u), b) % n
  }

  /** Sections 2.5.3, 2.5.4 and 2.6 of RFC 5054, with the salt padded as the clients
      of this protocol pad it, and the session key hashed from the secret's bytes. */
  ghost predicate FollowsRfc(group: Group, h: Hash, username: seq<byte>, password: seq<byte>, salt: nat, a: nat, b: nat, t: Exchange)
    requires group.prime >= 2
  {
    Hashes(group, h, username, password, salt, t) && Numbers(group.prime, group.generator, a, b, t)
  }

  lemma FieldPair(first: nat, second: nat, width: nat) returns (m: seq<byte>)
    ensures IsTwoFields(m, first, second, width)
  {
    FieldIs(first, width);
    FieldIs(second, width);
    TwoFieldsAre(Field(first, width), Field(second, width), first, second, width);
    m := Field(first, width) + Field(second, width);
  }

  lemma PasswordInput(h: Hash, salt: nat, username: seq<byte>, password: seq<byte>, width: nat) returns (m: seq<byte>)
    ensures IsPasswordInput(m, h, salt, username, password, width)
  {
    FieldIs(salt, width);
    var salted, hashed := Field(salt, width), h(username + [':' as int] + password);
    m := salted + hashed;
    assert m[..width] == salted && m[width..] == hashed;
  }

  function SentKey(n: nat, k: nat, v: nat, power: nat): nat
    requires n > 0
  {
    (k * v + power) % n
  }

  function ServersSecret(n: nat, clientKey: nat, v: nat, u: nat, b: nat): nat
    requires n > 0
  {
    Pow(clientKey * Pow(v, u), b) % n
  }

  /** There is always such a server. */
  lemma ServerExists(group: Group, h: Hash, username: seq<byte>, password: seq<byte>, salt: nat, a: nat, b: nat)
    returns (t: Exchange)
    requires group.prime >= 2
    ensures FollowsRfc(group, h, username, password, salt, a, b, t)
  {
    var (n, g, w) := (group.prime, group.generator, group.width);
    var kInput := FieldPair(n, g, w);
    var xInput := PasswordInput(h, salt, username, password, w);
    var k, x := FromBytes(h(kInput)), FromBytes(h(xInput));
    var verifier, clientKey := Pow(g, x) % n, Pow(g, a) % n;
    PowNat(g, b);
    var serverKey := SentKey(n, k, verifier, Pow(g, b));
    var uInput := FieldPair(clientKey, serverKey, w);
    var u := FromBytes(h(uInput));
    var secret := ServersSecret(n, clientKey, verifier, u, b);
    DecodeEncode(secret);
    t := Exchange(kInput, uInput, xInput, k, u, x, verifier, clientKey, serverKey,
                  secret, ToBytes(secret), FromBytes(h(ToBytes(secret))));
  }

  lemma CanonicalUnique(bytes: seq<byte>)
    requires Canonical(bytes)
    ensures ToBytes(FromBytes(bytes)) == bytes
  {
    EncodeDecode(bytes);
  }

  lemma HashesAre(group: Group, h: Hash, username: seq<byte>, password: seq<byte>, salt: nat, t: Exchange)
    requires Hashes(group, h, username, password, salt, t)
    ensures t.k == Multiplier(group, h) && t.x == PasswordKey(group, h, salt, username, password)
    ensures t.u == Scramble(group, h, t.clientKey, t.serverKey) && t.secretBytes == ToBytes(t.secret)
  {
    MultiplierIs(group, h, t.kInput);
    PasswordKeyIs(group, h, salt, username, password, t.xInput);
    ScrambleIs(group, h, t.clientKey, t.serverKey, t.uInput);
    CanonicalUnique(t.secretBytes);
  }

  // The model's server functions are this arithmetic.
  lemma NumbersAre(n: nat, g: nat, a: nat, b: nat, t: Exchange)
    requires n >= 2 && Numbers(n, g, a, b, t)
    ensures t.clientKey == PowMod(g, a, n) && t.verifier == PowMod(g, t.x, n)
    ensures t.serverKey == ServerKey(n, g, t.k, t.verifier, b)
    ensures t.secret == ServerSecret(n, t.clientKey, t.verifier, t.u, b)
  {
    PowModIsPower(g, a, n);
    PowModIsPower(g, t.x, n);
  }

  /** Given the server's key, `derive_session_key` reaches the server's session key,
      for every group of modulus at least 2, every hash, user, password, salt and
      pair of private keys; it fails exactly when the modulus divides g^b. */
  lemma SessionKeysAgree(group: Group, h: Hash, username: seq<byte>, password: seq<byte>, salt: nat, a: nat, b: nat, t: Exchange)
    requires group.prime >= 2 && FollowsRfc(group, h, username, password, salt, a, b, t)
    ensures SessionKey(group, h, username, password, a, t.serverKey, salt) ==
            if Pow(group.generator, b) % group.prime == 0 then Err(InvalidServerKey) else Ok(t.sessionKey)
  {
    HashesAre(group, h, username, password, salt, t);
    NumbersAre(group.prime, group.generator, a, b, t);
    KeyAgreement(group.prime, group.generator, a, b, t.x, t.u, t.k);
  }

  /** The client's two calls on such a server's hello. The client refuses the hello
      exactly when the server's key is 0, fails exactly when otherwise the modulus
      divides g^b, and else holds the server's session key. */
  method Handshake(session: Session, password: seq<byte>, salt: nat, serverKey: nat, ghost b: nat, ghost t: Exchange)
    returns (outcome: Result<nat, SrpError>)
    requires session.group.prime >= 2 && serverKey == t.serverKey
    requires FollowsRfc(session.group, session.hash, session.username, password, salt, session.clientPrivateKey, b, t)
    modifies session
    ensures outcome ==
            if serverKey == 0 then Err(InvalidSession)
            else if Pow(session.group.generator, b) % session.group.prime == 0 then Err(InvalidServerKey)
            else Ok(t.sessionKey)
    ensures session.sharedKey == if outcome.Ok? then Some(outcome.value) else old(session.sharedKey)
  {
    ModUnique(serverKey, 0, serverKey, session.group.prime);
    SessionKeysAgree(session.group, session.hash, session.username, password, salt, session.clientPrivateKey, b, t);
    var hello := session.SetServerPublicKey(serverKey, salt);
    if hello.Err? {
      return Err(InvalidSession);
    }
    outcome := session.SetSharedKey(password);
  }

  /** The two refusals are different conditions: here g^b is no multiple of the
      modulus, and the server's key is 0. */
  lemma HelloRefusedThoughPowerIsNot(h: Hash, t: Exchange)
    requires forall m: seq<byte> :: h(m) == [1]
    requires FollowsRfc(Group(2, 1, 1), h, [], [], 0, 0, 0, t)
    ensures t.serverKey == 0 && Pow(1, 0) % 2 != 0
  {
    var one: seq<byte> := [1];
    assert one[..0] == [] && FromBytes(one) == FromBytes([]) * 256 + 1;
    assert t.k == 1 && t.x == 1;
  }
}
