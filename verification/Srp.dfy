/** The client's side of the secure remote password exchange (RFC 5054), over any
    group (modulus, generator) and any hash. */
module Srp {
  import opened Wrappers
  import opened M = ModArith
  import opened E = ByteEncoding

  // `width` is 384 bytes in the daemon.
  datatype Group = Group(prime: nat, generator: byte, width: nat)

  type Hash = seq<byte> -> seq<byte>

  datatype SrpError = InvalidSession | InvalidServerKey

  const COLON: byte := 58

  // The generator is one byte, and its encoding is that byte.
  lemma OneByte(g: byte)
    ensures ToBytes(g) == [g]
  {
    assert g > 0 ==> Digits(g) == Digits(g / 256) + [g % 256];
  }

  function Multiplier(group: Group, h: Hash): nat {
    FromBytes(h(Field(group.prime, group.width) + Field(group.generator, group.width)))
  }

  function ClientPublicKey(group: Group, a: nat): nat {
    PowMod(group.generator, a, group.prime)
  }

  function ScrambleInput(clientKey: nat, serverKey: nat, width: nat): seq<byte> {
    Field(clientKey, width) + Field(serverKey, width)
  }

  function Scramble(group: Group, h: Hash, clientKey: nat, serverKey: nat): nat {
    FromBytes(h(ScrambleInput(clientKey, serverKey, group.width)))
  }

  function PasswordKey(group: Group, h: Hash, salt: nat, username: seq<byte>, password: seq<byte>): nat {
    FromBytes(h(Field(salt, group.width) + h(username + [COLON] + password)))
  }

  /** The base of the shared secret, by the branches that keep it unsigned. */
  function UnsignedBase(prime: nat, serverKey: nat, k: nat, gx: nat): nat {
    var rhs := Mod(Product(k, gx), prime);
    if serverKey >= rhs then Mod(serverKey - rhs, prime)
    else assert prime > 0; Mod(serverKey + prime - rhs, prime)
  }

  /** The value the client raises and hashes; it fails exactly on a zero base. */
  function ClientSecret(prime: nat, g: nat, k: nat, x: nat, u: nat, a: nat, serverKey: nat): Result<nat, SrpError> {
    var base := UnsignedBase(prime, serverKey, k, PowMod(g, x, prime));
    if base == 0 then Err(InvalidServerKey) else Ok(PowMod(base, a + Product(u, x), prime))
  }

  /** The server's secret for client key A, verifier v and private key b (RFC 5054, section 2.6). */
  function ServerSecret(prime: nat, clientKey: nat, v: nat, u: nat, b: nat): nat
    requires prime > 0
  {
    Pow(clientKey * Pow(v, u), b) % prime
  }

  // ---------- unsigned and signed arithmetic ----------

  lemma SubtractResidue(a: int, p: int, n: int)
    requires n > 0
    ensures (a - p % n) % n == (a - p) % n
  {
    assert p == n * (p / n) + p % n;
    assert a - p == (a - p % n) + (-(p / n)) * n;
    ShiftMod(a - p % n, -(p / n), n);
  }

  /** The branchy unsigned subtraction is the least residue of B - k*g^x, for every
      B, also one not below the prime. */
  lemma UnsignedRefinesSigned(prime: nat, serverKey: nat, k: nat, gx: nat)
    requires prime > 0
    ensures UnsignedBase(prime, serverKey, k, gx) == (serverKey - Product(k, gx)) % prime
  {
    var p := Product(k, gx);
    SubtractResidue(serverKey, p, prime);
    ShiftMod(serverKey - p % prime, 1, prime);
  }

  method DenoSecret(prime: nat, g: nat, k: nat, x: nat, u: nat, a: nat, serverKey: nat)
    returns (outcome: Result<nat, PowError>)
    requires prime > 0
    ensures outcome == Ok(Pow(serverKey - Product(k, Pow(g, x) % prime), a + Product(u, x)) % prime)
  {
    var gx := PowerModDeno(g, x, prime);
    outcome := PowerModDeno(serverKey - Product(k, gx.value), a + Product(u, x), prime);
  }

  /** Where the Rust code computes a secret it is the Deno code's; where it refuses,
      the Deno code raises a number divisible by the prime. */
  lemma RustAndDenoSecretsAgree(prime: nat, g: nat, k: nat, x: nat, u: nat, a: nat, serverKey: nat)
    requires prime >= 2
    ensures ClientSecret(prime, g, k, x, u, a, serverKey) ==
            var base := serverKey - Product(k, Pow(g, x) % prime);
            if base % prime == 0 then Err(InvalidServerKey) else Ok(Pow(base, a + Product(u, x)) % prime)
  {
    var gx := PowMod(g, x, prime);
    PowModIsPower(g, x, prime);
    UnsignedRefinesSigned(prime, serverKey, k, gx);
    var signed := serverKey - Product(k, gx);
    var base := UnsignedBase(prime, serverKey, k, gx);
    var e := a + Product(u, x);
    CongMod(signed, prime);
    PowCong(base, signed, e, prime);
    PowModIsPower(base, e, prime);
  }

  // ---------- key agreement ----------

  // base^(a + u*x), with base = g^b, is (g^a * (g^x)^u)^b.
  lemma ExponentsMeet(g: int, a: nat, b: nat, u: nat, x: nat)
    ensures Pow(Pow(g, b), a + Product(u, x)) == Pow(Pow(g, a) * Pow(Pow(g, x), u), b)
  {
    var ux := Product(u, x);
    PowOfPow(g, x, u);
    assert x * u == ux;
    PowAdd(g, a, ux);
    var e := a + ux;
    PowOfPow(g, e, b);
    PowOfPow(g, b, e);
    assert e * b == b * e;
  }

  lemma ServerSecretIs(prime: nat, g: nat, a: nat, b: nat, u: nat, x: nat)
    requires prime >= 2
    ensures ServerSecret(prime, PowMod(g, a, prime), PowMod(g, x, prime), u, b)
         == Pow(Pow(g, a) * Pow(Pow(g, x), u), b) % prime
  {
    PowModIsPower(g, a, prime);
    PowModIsPower(g, x, prime);
    CongMod(Pow(g, a), prime);
    CongMod(Pow(g, x), prime);
    PowCong(PowMod(g, x, prime), Pow(g, x), u, prime);
    CongMul(PowMod(g, a, prime), Pow(g, a), Pow(PowMod(g, x, prime), u), Pow(Pow(g, x), u), prime);
    PowCong(PowMod(g, a, prime) * Pow(PowMod(g, x, prime), u), Pow(g, a) * Pow(Pow(g, x), u), b, prime);
  }

  /** What a server holding verifier v and private key b sends (RFC 5054, section 2.5.3). */
  function ServerKey(prime: nat, g: nat, k: nat, v: nat, b: nat): nat
    requires prime > 0
  {
    PowNat(g, b);
    (Product(k, v) + Pow(g, b)) % prime
  }

  // Subtracting k*v from B = k*v + g^b leaves g^b, modulo the prime.
  lemma BaseIsServerPower(prime: nat, g: nat, k: nat, v: nat, b: nat)
    requires prime >= 2
    ensures UnsignedBase(prime, ServerKey(prime, g, k, v, b), k, v) == Pow(g, b) % prime
  {
    PowNat(g, b);
    var p, w := Product(k, v), Pow(g, b);
    var serverKey := ServerKey(prime, g, k, v, b);
    UnsignedRefinesSigned(prime, serverKey, k, v);
    SubtractBack(p, w, prime);
  }

  lemma SubtractBack(p: int, w: int, n: int)
    requires n > 0
    ensures ((p + w) % n - p) % n == w % n
  {
    var q := (p + w) / n;
    assert p + w == n * q + (p + w) % n;
    assert (p + w) % n - p == w + (-q) * n;
    ShiftMod(w, -q, n);
  }

  lemma PowerOfResidue(q: nat, e: nat, n: nat)
    requires n >= 2
    ensures PowMod(q % n, e, n) == Pow(q, e) % n
  {
    CongMod(q, n);
    PowCong(q % n, q, e, n);
    PowModIsPower(q % n, e, n);
  }

  lemma ClientPowerIsServerSecret(prime: nat, g: nat, a: nat, b: nat, x: nat, u: nat)
    requires prime >= 2
    ensures Pow(g, b) >= 0
    ensures PowMod(Pow(g, b) % prime, a + Product(u, x), prime)
         == ServerSecret(prime, PowMod(g, a, prime), PowMod(g, x, prime), u, b)
  {
    PowNat(g, b);
    PowerOfResidue(Pow(g, b), a + Product(u, x), prime);
    ExponentsMeet(g, a, b, u, x);
    ServerSecretIs(prime, g, a, b, u, x);
  }

  /** Key agreement, for every modulus from 2 up and all g, a, b, x, u, k: against
      the server key B = k*v + g^b the client either finds the server's secret, or
      refuses, and it refuses exactly when the prime divides g^b. */
  lemma KeyAgreement(prime: nat, g: nat, a: nat, b: nat, x: nat, u: nat, k: nat)
    requires prime >= 2
    ensures var v := PowMod(g, x, prime);
            ClientSecret(prime, g, k, x, u, a, ServerKey(prime, g, k, v, b)) ==
            if Pow(g, b) % prime == 0 then Err(InvalidServerKey)
            else Ok(ServerSecret(prime, PowMod(g, a, prime), v, u, b))
  {
    var v := PowMod(g, x, prime);
    BaseIsServerPower(prime, g, k, v, b);
    ClientPowerIsServerSecret(prime, g, a, b, x, u);
  }

  // ---------- the session ----------

  /** The transcript `compute_m` hashes. */
  function Transcript(group: Group, h: Hash, username: seq<byte>, salt: nat, clientKey: nat, serverKey: nat, sharedKey: nat): seq<byte> {
    TranscriptHead(group, h, username)
    + Join(Padded([salt, clientKey, serverKey, sharedKey], group.width))
    + h(ScrambleInput(clientKey, serverKey, group.width))
  }

  function TranscriptHead(group: Group, h: Hash, username: seq<byte>): seq<byte> {
    XorBytes(h(Field(group.prime, group.width)), h(Field(group.generator, group.width))) + h(username)
  }

  function Join(parts: seq<seq<byte>>): seq<byte> {
    if parts == [] then [] else parts[0] + Join(parts[1..])
  }

  /** The padded fields of a list of numbers. */
  function Padded(xs: seq<nat>, width: nat): seq<seq<byte>> {
    seq(|xs|, i requires 0 <= i < |xs| => Field(xs[i], width))
  }

  function XorBytes(a: seq<byte>, b: seq<byte>): seq<byte>
  {
    if a == [] || b == [] then [] else
      XorByteBound(a[0], b[0]);
      [Xor(a[0], b[0])] + XorBytes(a[1..], b[1..])
  }

  lemma {:induction false} XorBound(a: nat, b: nat, bits: nat, bound: int)
    requires bound == Pow(2, bits) && a < bound && b < bound
    ensures Xor(a, b) < bound
  {
    if a != 0 || b != 0 {
      assert bits > 0;
      XorBound(a / 2, b / 2, bits - 1, Pow(2, bits - 1));
    }
  }

  lemma XorByteBound(a: byte, b: byte)
    ensures Xor(a, b) < 256
  {
    assert Pow(2, 8) == 256;
    XorBound(a, b, 8, 256);
  }

  /** Byte by byte and bit by bit: a bit of the result is set exactly when one of the
      two is, and the result is as long as the shorter input. */
  lemma {:induction false} XorBytesBits(a: seq<byte>, b: seq<byte>)
    ensures |XorBytes(a, b)| == if |a| <= |b| then |a| else |b|
    ensures forall i, j: nat | 0 <= i < |XorBytes(a, b)| ::
              Bit(XorBytes(a, b)[i], j) == 1 <==> Bit(a[i], j) != Bit(b[i], j)
  {
    if a != [] && b != [] {
      XorBytesBits(a[1..], b[1..]);
      forall i, j: nat | 0 <= i < |XorBytes(a, b)| ensures Bit(XorBytes(a, b)[i], j) == 1 <==> Bit(a[i], j) != Bit(b[i], j) {
        XorByteBound(a[0], b[0]);
        XorBit(a[0], b[0], j);
        assert i > 0 ==> a[i] == a[1..][i - 1] && b[i] == b[1..][i - 1];
      }
    }
  }

  // ---------- what is hashed, by the bytes ----------

  /** The bytes are the number's lowest digits, exactly `width` of them. */
  ghost predicate IsField(bytes: seq<byte>, n: nat, width: nat) {
    |bytes| == width && FromBytes(bytes) == Truncated(n, width)
  }

  ghost predicate IsTwoFields(bytes: seq<byte>, first: nat, second: nat, width: nat) {
    |bytes| == 2 * width && IsField(bytes[..width], first, width) && IsField(bytes[width..], second, width)
  }

  lemma FieldIs(n: nat, width: nat)
    ensures IsField(Field(n, width), n, width)
  {
    PadDecodes(ToBytes(n), width);
    DecodeEncode(n);
    TruncatedIs(n, width);
  }

  lemma FieldUnique(a: seq<byte>, b: seq<byte>, n: nat, width: nat)
    requires IsField(a, n, width) && IsField(b, n, width)
    ensures a == b
  {
    FromBytesInjective(a, b);
  }

  lemma TwoFieldsAre(a: seq<byte>, b: seq<byte>, first: nat, second: nat, width: nat)
    requires IsField(a, first, width) && IsField(b, second, width)
    ensures IsTwoFields(a + b, first, second, width)
    ensures forall m :: IsTwoFields(m, first, second, width) ==> m == a + b
  {
    assert (a + b)[..width] == a && (a + b)[width..] == b;
    forall m | IsTwoFields(m, first, second, width) ensures m == a + b {
      FieldUnique(m[..width], a, first, width);
      FieldUnique(m[width..], b, second, width);
      assert m == m[..width] + m[width..];
    }
  }

  /** The multiplier is the hash of modulus and generator, padded, in that order. */
  lemma MultiplierIs(group: Group, h: Hash, m: seq<byte>)
    requires IsTwoFields(m, group.prime, group.generator, group.width)
    ensures Multiplier(group, h) == FromBytes(h(m))
  {
    FieldIs(group.prime, group.width);
    FieldIs(group.generator, group.width);
    TwoFieldsAre(Field(group.prime, group.width), Field(group.generator, group.width), group.prime, group.generator, group.width);
  }

  /** The scramble is the hash of client key and server key, padded, in that order. */
  lemma ScrambleIs(group: Group, h: Hash, clientKey: nat, serverKey: nat, m: seq<byte>)
    requires IsTwoFields(m, clientKey, serverKey, group.width)
    ensures ScrambleInput(clientKey, serverKey, group.width) == m && Scramble(group, h, clientKey, serverKey) == FromBytes(h(m))
  {
    FieldIs(clientKey, group.width);
    FieldIs(serverKey, group.width);
    TwoFieldsAre(Field(clientKey, group.width), Field(serverKey, group.width), clientKey, serverKey, group.width);
  }

  /** The bytes are the padded salt, then the hash of "username:password". */
  ghost predicate IsPasswordInput(m: seq<byte>, h: Hash, salt: nat, username: seq<byte>, password: seq<byte>, width: nat) {
    |m| >= width && IsField(m[..width], salt, width) && m[width..] == h(username + [':' as int] + password)
  }

  lemma PasswordKeyIs(group: Group, h: Hash, salt: nat, username: seq<byte>, password: seq<byte>, m: seq<byte>)
    requires IsPasswordInput(m, h, salt, username, password, group.width)
    ensures PasswordKey(group, h, salt, username, password) == FromBytes(h(m))
  {
    FieldIs(salt, group.width);
    FieldUnique(m[..group.width], Field(salt, group.width), salt, group.width);
    assert m == Field(salt, group.width) + h(username + [COLON] + password);
  }

  /** Each bit of the first bytes is set exactly when one of the two hashes has it set. */
  ghost predicate IsXorOf(bytes: seq<byte>, n: seq<byte>, g: seq<byte>) {
    && |bytes| == (if |n| <= |g| then |n| else |g|)
    && forall i, j: nat | 0 <= i < |bytes| :: Bit(bytes[i], j) == 1 <==> Bit(n[i], j) != Bit(g[i], j)
  }

  /** Four padded numbers, one after the other. */
  ghost predicate IsFourFields(bytes: seq<byte>, a: nat, b: nat, c: nat, d: nat, w: nat) {
    && |bytes| == 4 * w
    && IsField(bytes[..w], a, w) && IsField(bytes[w..2 * w], b, w)
    && IsField(bytes[2 * w..3 * w], c, w) && IsField(bytes[3 * w..], d, w)
  }

  /** What `compute_m` hashes, by offset: the bitwise exclusive or of the hashes of
      modulus and generator, the hash of the user's name, four padded numbers, and the
      hash of the two public keys. */
  ghost predicate IsProofInput(t: seq<byte>, group: Group, h: Hash, username: seq<byte>, salt: nat, clientKey: nat,
                               serverKey: nat, sharedKey: nat, nInput: seq<byte>, gInput: seq<byte>, uInput: seq<byte>)
  {
    var (w, n, g) := (group.width, h(nInput), h(gInput));
    var x := if |n| <= |g| then |n| else |g|;
    var p := x + |h(username)|;
    && IsField(nInput, group.prime, w) && IsField(gInput, group.generator, w)
    && IsTwoFields(uInput, clientKey, serverKey, w)
    && |t| == p + 4 * w + |h(uInput)|
    && IsXorOf(t[..x], n, g)
    && t[x..p] == h(username)
    && IsFourFields(t[p..p + 4 * w], salt, clientKey, serverKey, sharedKey, w)
    && t[p + 4 * w..] == h(uInput)
  }

  lemma FourFieldsAre(a: nat, b: nat, c: nat, d: nat, w: nat)
    ensures IsFourFields(Join(Padded([a, b, c, d], w)), a, b, c, d, w)
  {
    FieldIs(a, w);
    FieldIs(b, w);
    FieldIs(c, w);
    FieldIs(d, w);
    PaddedFour(a, b, c, d, w);
    FourParts(Field(a, w), Field(b, w), Field(c, w), Field(d, w), w);
  }

  lemma FourParts(a: seq<byte>, b: seq<byte>, c: seq<byte>, d: seq<byte>, w: nat)
    requires |a| == |b| == |c| == |d| == w
    ensures var t := a + b + c + d;
            |t| == 4 * w && t[..w] == a && t[w..2 * w] == b && t[2 * w..3 * w] == c && t[3 * w..] == d
  {
  }

  lemma Slices(t: seq<byte>, x: seq<byte>, i: seq<byte>, f: seq<byte>, u: seq<byte>)
    requires t == x + i + f + u
    ensures |t| == |x| + |i| + |f| + |u| && t[..|x|] == x && t[|x|..|x| + |i|] == i
    ensures t[|x| + |i|..|x| + |i| + |f|] == f && t[|x| + |i| + |f|..] == u
  {
  }

  lemma ProofInputOf(t: seq<byte>, group: Group, h: Hash, username: seq<byte>, salt: nat, clientKey: nat, serverKey: nat,
                     sharedKey: nat, nInput: seq<byte>, gInput: seq<byte>, uInput: seq<byte>, x: seq<byte>, f: seq<byte>)
    requires IsField(nInput, group.prime, group.width) && IsField(gInput, group.generator, group.width)
    requires IsTwoFields(uInput, clientKey, serverKey, group.width)
    requires IsXorOf(x, h(nInput), h(gInput)) && IsFourFields(f, salt, clientKey, serverKey, sharedKey, group.width)
    requires t == x + h(username) + f + h(uInput)
    ensures IsProofInput(t, group, h, username, salt, clientKey, serverKey, sharedKey, nInput, gInput, uInput)
  {
    Slices(t, x, h(username), f, h(uInput));
  }

  lemma TranscriptLayout(group: Group, h: Hash, username: seq<byte>, salt: nat, clientKey: nat, serverKey: nat, sharedKey: nat)
    returns (nInput: seq<byte>, gInput: seq<byte>, uInput: seq<byte>)
    ensures IsProofInput(Transcript(group, h, username, salt, clientKey, serverKey, sharedKey),
                         group, h, username, salt, clientKey, serverKey, sharedKey, nInput, gInput, uInput)
  {
    var w := group.width;
    nInput, gInput, uInput := Field(group.prime, w), Field(group.generator, w), ScrambleInput(clientKey, serverKey, w);
    FieldIs(group.prime, w);
    FieldIs(group.generator, w);
    FieldIs(clientKey, w);
    FieldIs(serverKey, w);
    TwoFieldsAre(Field(clientKey, w), Field(serverKey, w), clientKey, serverKey, w);
    var f := Join(Padded([salt, clientKey, serverKey, sharedKey], w));
    FourFieldsAre(salt, clientKey, serverKey, sharedKey, w);
    XorBytesBits(h(nInput), h(gInput));
    ProofInputOf(Transcript(group, h, username, salt, clientKey, serverKey, sharedKey),
                 group, h, username, salt, clientKey, serverKey, sharedKey,
                 nInput, gInput, uInput, XorBytes(h(nInput), h(gInput)), f);
  }

  // ---------- what the hash inputs determine ----------

  lemma ConcatInjective(a: seq<byte>, b: seq<byte>, c: seq<byte>, d: seq<byte>)
    requires |a| == |c|
    ensures a + b == c + d <==> a == c && b == d
  {
    if a + b == c + d {
      assert a == (a + b)[..|a|] == (c + d)[..|a|] == c;
      assert b == (a + b)[|a|..] == (c + d)[|a|..] == d;
    }
  }

  /** Two numbers a field of this width cannot tell apart. */
  ghost predicate SameField(x: nat, y: nat, width: nat) {
    Truncated(x, width) == Truncated(y, width)
  }

  lemma FieldsOfOne(x: nat, y: nat, width: nat)
    ensures |Field(x, width)| == |Field(y, width)| == width
    ensures Field(x, width) == Field(y, width) <==> SameField(x, y, width)
  {
    FieldInjective(x, y, width);
    TruncatedIs(x, width);
    TruncatedIs(y, width);
    PadDecodes(ToBytes(x), width);
    PadDecodes(ToBytes(y), width);
  }

  /** Two hash inputs of the scramble are equal exactly when both keys agree modulo
      256^width, so below that bound they determine the keys. */
  lemma ScrambleInputInjective(a: nat, b: nat, c: nat, d: nat, width: nat)
    ensures ScrambleInput(a, b, width) == ScrambleInput(c, d, width)
       <==> SameField(a, c, width) && SameField(b, d, width)
  {
    FieldsOfOne(a, c, width);
    FieldsOfOne(b, d, width);
    ConcatInjective(Field(a, width), Field(b, width), Field(c, width), Field(d, width));
  }

  ghost predicate SameFields(xs: seq<nat>, ys: seq<nat>, width: nat)
    requires |xs| == |ys|
  {
    forall i | 0 <= i < |xs| :: SameField(xs[i], ys[i], width)
  }

  lemma {:induction false} JoinInjective(ps: seq<seq<byte>>, qs: seq<seq<byte>>)
    requires |ps| == |qs| && forall i | 0 <= i < |ps| :: |ps[i]| == |qs[i]|
    ensures |Join(ps)| == |Join(qs)|
    ensures Join(ps) == Join(qs) <==> ps == qs
  {
    if ps != [] {
      JoinInjective(ps[1..], qs[1..]);
      ConcatInjective(ps[0], Join(ps[1..]), qs[0], Join(qs[1..]));
      assert ps == [ps[0]] + ps[1..] && qs == [qs[0]] + qs[1..];
    }
  }

  lemma PaddedInjective(xs: seq<nat>, ys: seq<nat>, width: nat)
    requires |xs| == |ys|
    ensures |Join(Padded(xs, width))| == |Join(Padded(ys, width))|
    ensures Join(Padded(xs, width)) == Join(Padded(ys, width)) <==> SameFields(xs, ys, width)
  {
    var ps, qs := Padded(xs, width), Padded(ys, width);
    forall i | 0 <= i < |xs| ensures |ps[i]| == |qs[i]| && (ps[i] == qs[i] <==> SameField(xs[i], ys[i], width)) {
      FieldsOfOne(xs[i], ys[i], width);
    }
    JoinInjective(ps, qs);
  }

  lemma LayoutInjective(head: seq<byte>, fx: seq<byte>, u: seq<byte>, fy: seq<byte>, v: seq<byte>)
    requires |fx| == |fy|
    ensures head + fx + u == head + fy + v <==> fx == fy && u == v
  {
    ConcatInjective(head + fx, u, head + fy, v);
    ConcatInjective(head, fx, head, fy);
  }

  lemma SameFieldsSameScramble(h: Hash, xs: seq<nat>, ys: seq<nat>, width: nat)
    requires |xs| == |ys| == 4 && SameFields(xs, ys, width)
    ensures h(ScrambleInput(xs[1], xs[2], width)) == h(ScrambleInput(ys[1], ys[2], width))
  {
    ScrambleInputInjective(xs[1], xs[2], ys[1], ys[2], width);
  }

  /** One user's transcripts are equal exactly when salt, client key, server key and
      shared key agree modulo 256^width, whatever the hash. */
  lemma TranscriptInjective(group: Group, h: Hash, username: seq<byte>, xs: seq<nat>, ys: seq<nat>)
    requires |xs| == |ys| == 4
    ensures Transcript(group, h, username, xs[0], xs[1], xs[2], xs[3])
         == Transcript(group, h, username, ys[0], ys[1], ys[2], ys[3])
       <==> SameFields(xs, ys, group.width)
  {
    var w := group.width;
    assert [xs[0], xs[1], xs[2], xs[3]] == xs && [ys[0], ys[1], ys[2], ys[3]] == ys;
    PaddedInjective(xs, ys, w);
    if SameFields(xs, ys, w) {
      SameFieldsSameScramble(h, xs, ys, w);
    }
    LayoutInjective(TranscriptHead(group, h, username),
                    Join(Padded(xs, w)), h(ScrambleInput(xs[1], xs[2], w)),
                    Join(Padded(ys, w)), h(ScrambleInput(ys[1], ys[2], w)));
  }

  lemma JoinFour(ps: seq<seq<byte>>)
    requires |ps| == 4
    ensures Join(ps) == ps[0] + ps[1] + ps[2] + ps[3]
  {
    var p1, p2, p3 := ps[1..], ps[2..], ps[3..];
    assert p1[1..] == p2 && p2[1..] == p3 && p3[1..] == [];
    assert Join(p3) == ps[3];
    assert Join(p1) == ps[1] + (ps[2] + ps[3]);
  }

  lemma PaddedFour(a: nat, b: nat, c: nat, d: nat, width: nat)
    ensures Join(Padded([a, b, c, d], width)) == Field(a, width) + Field(b, width) + Field(c, width) + Field(d, width)
  {
    JoinFour(Padded([a, b, c, d], width));
  }

  method DeriveSecret(prime: nat, g: nat, k: nat, x: nat, u: nat, a: nat, serverKey: nat)
    returns (outcome: Result<nat, SrpError>)
    ensures outcome == ClientSecret(prime, g, k, x, u, a, serverKey)
  {
    var gx := PowerMod(g, x, prime);
    var base := UnsignedBase(prime, serverKey, k, gx);
    if base == 0 {
      return Err(InvalidServerKey);
    }
    var exponent := a + Product(u, x);
    var secret := PowerMod(base, exponent, prime);
    outcome := Ok(secret);
  }

  class Session {
    const group: Group
    const hash: Hash
    var username: seq<byte>
    var clientPrivateKey: nat
    var serverPublicKey: Option<nat>
    var salt: Option<nat>
    var sharedKey: Option<nat>

    constructor (group: Group, hash: Hash, username: seq<byte>, clientPrivateKey: nat)
      ensures this.group == group && this.hash == hash
      ensures this.username == username && this.clientPrivateKey == clientPrivateKey
      ensures serverPublicKey.None? && salt.None? && sharedKey.None?
    {
      this.group, this.hash := group, hash;
      this.username, this.clientPrivateKey := username, clientPrivateKey;
      serverPublicKey, salt, sharedKey := None, None, None;
    }

    method SetServerPublicKey(key: nat, salt: nat) returns (outcome: Result<(), SrpError>)
      modifies this`serverPublicKey, this`salt
      ensures outcome.Ok? <==> Mod(key, group.prime) != 0
      ensures outcome.Ok? ==> serverPublicKey == Some(key) && this.salt == Some(salt)
      ensures outcome.Err? ==> outcome.error == InvalidSession && unchanged(this)
    {
      if Mod(key, group.prime) == 0 {
        return Err(InvalidSession);
      }
      serverPublicKey := Some(key);
      this.salt := Some(salt);
      outcome := Ok(());
    }

    /** The key `derive_session_key` computes from this session. */
    ghost function DerivedKey(password: seq<byte>): Result<nat, SrpError>
      reads this
    {
      if serverPublicKey.None? || salt.None? then Err(InvalidSession) else
        SessionKey(group, hash, username, password, clientPrivateKey, serverPublicKey.value, salt.value)
    }

    method DeriveSessionKey(password: seq<byte>) returns (outcome: Result<nat, SrpError>)
      ensures outcome == DerivedKey(password)
    {
      if serverPublicKey.None? || salt.None? {
        return Err(InvalidSession);
      }
      var passwordHash := hash(username + [COLON] + password);
      var x := FromBytes(hash(Field(salt.value, group.width) + passwordHash));
      var clientKey := PowerMod(group.generator, clientPrivateKey, group.prime);
      var u := FromBytes(hash(Field(clientKey, group.width) + Field(serverPublicKey.value, group.width)));
      var k := Multiplier(group, hash);
      var secret := DeriveSecret(group.prime, group.generator, k, x, u, clientPrivateKey, serverPublicKey.value);
      if secret.Err? {
        return Err(secret.error);
      }
      outcome := Ok(FromBytes(hash(ToBytes(secret.value))));
    }

    method SetSharedKey(password: seq<byte>) returns (outcome: Result<nat, SrpError>)
      modifies this`sharedKey
      ensures outcome == old(DerivedKey(password))
      ensures sharedKey == if outcome.Ok? then Some(outcome.value) else old(sharedKey)
    {
      if serverPublicKey.None? || salt.None? {
        return Err(InvalidSession);
      }
      var key := DeriveSessionKey(password);
      if key.Err? {
        return key;
      }
      sharedKey := Some(key.value);
      outcome := key;
    }

    method ComputeM() returns (outcome: Result<seq<byte>, SrpError>)
      ensures outcome ==
        if salt.None? || serverPublicKey.None? || sharedKey.None? then Err(InvalidSession)
        else Ok(hash(Transcript(group, hash, username, salt.value, ClientPublicKey(group, clientPrivateKey),
                                serverPublicKey.value, sharedKey.value)))
    {
      if salt.None? || serverPublicKey.None? || sharedKey.None? {
        return Err(InvalidSession);
      }
      var clientKey := PowerMod(group.generator, clientPrivateKey, group.prime);
      var width := group.width;
      var nHash := hash(Field(group.prime, width));
      OneByte(group.generator);
      var gHash := hash(Pad([group.generator], width));
      var scramble := hash(Field(clientKey, width) + Field(serverPublicKey.value, width));
      PaddedFour(salt.value, clientKey, serverPublicKey.value, sharedKey.value, width);
      outcome := Ok(hash(XorBytes(nHash, gHash) + hash(username)
                         + (Field(salt.value, width) + Field(clientKey, width)
                            + Field(serverPublicKey.value, width) + Field(sharedKey.value, width))
                         + scramble));
    }
  }

  function SessionKey(group: Group, h: Hash, username: seq<byte>, password: seq<byte>, a: nat, serverKey: nat, salt: nat): Result<nat, SrpError> {
    var x := PasswordKey(group, h, salt, username, password);
    var u := Scramble(group, h, ClientPublicKey(group, a), serverKey);
    match ClientSecret(group.prime, group.generator, Multiplier(group, h), x, u, a, serverKey)
    case Err(e) => Err(e)
    case Ok(secret) => Ok(FromBytes(h(ToBytes(secret))))
  }
}
