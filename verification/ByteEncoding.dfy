/** Big-endian bytes of a number and back, and the fixed-width padding of the
    hash inputs. */
module ByteEncoding {
  import opened M = ModArith

  type byte = b: nat | b < 256

  function FromBytes(bs: seq<byte>): nat {
    if bs == [] then 0 else FromBytes(bs[..|bs| - 1]) * 256 + bs[|bs| - 1]
  }

  // Digits above the lowest one, most significant first; nothing for 0.
  function Digits(n: nat): seq<byte> {
    if n == 0 then [] else Digits(n / 256) + [n % 256]
  }

  function ToBytes(n: nat): seq<byte> {
    if n == 0 then [0] else Digits(n)
  }

  /** What `toBuffer` and `to_bytes_be` produce: no leading zero, except for 0 itself. */
  predicate Canonical(bs: seq<byte>) {
    |bs| >= 1 && (|bs| > 1 ==> bs[0] != 0)
  }

  method ToBuffer(n: nat) returns (bytes: seq<byte>)
    ensures bytes == ToBytes(n)
  {
    if n == 0 {
      return [0];
    }
    var remaining := n;
    bytes := [];
    while remaining > 0
      invariant Digits(remaining) + bytes == Digits(n)
      decreases remaining
    {
      ghost var before := bytes;
      bytes := [remaining % 256] + bytes;
      assert Digits(remaining / 256) + bytes == Digits(remaining) + before;
      remaining := remaining / 256;
    }
  }

  method ReadBigInt(buffer: seq<byte>) returns (value: nat)
    ensures value == FromBytes(buffer)
  {
    value := 0;
    for i := 0 to |buffer|
      invariant value == FromBytes(buffer[..i])
    {
      value := value * 256 + buffer[i];
      assert buffer[..i + 1][..i] == buffer[..i];
    }
    assert buffer[..|buffer|] == buffer;
  }

  lemma {:induction false} DigitsDecode(n: nat)
    ensures FromBytes(Digits(n)) == n
    ensures n > 0 ==> Digits(n) != [] && Digits(n)[0] != 0
  {
    if n > 0 {
      DigitsDecode(n / 256);
      assert Digits(n)[..|Digits(n)| - 1] == Digits(n / 256);
    }
  }

  /** Encoding loses nothing. */
  lemma DecodeEncode(n: nat)
    ensures FromBytes(ToBytes(n)) == n && Canonical(ToBytes(n))
  {
    DigitsDecode(n);
    assert FromBytes([0]) == 0 by { assert [0][..0] == []; }
  }

  lemma {:induction false} EncodeDigits(bs: seq<byte>)
    requires bs != [] && bs[0] != 0
    ensures FromBytes(bs) > 0 && Digits(FromBytes(bs)) == bs
  {
    var rest, last := bs[..|bs| - 1], bs[|bs| - 1];
    if rest == [] {
      assert FromBytes(bs) == last;
      assert Digits(0) + [last] == [last];
    } else {
      EncodeDigits(rest);
      assert FromBytes(bs) / 256 == FromBytes(rest) && FromBytes(bs) % 256 == last;
    }
    assert bs == rest + [last];
  }

  /** Decoding and encoding again gives the bytes back exactly when they are canonical. */
  lemma EncodeDecode(bs: seq<byte>)
    ensures ToBytes(FromBytes(bs)) == bs <==> Canonical(bs)
  {
    if Canonical(bs) {
      if bs[0] == 0 {
        assert bs == [0] && bs[..0] == [];
      } else {
        EncodeDigits(bs);
      }
    } else {
      DecodeEncode(FromBytes(bs));
    }
  }

  // ---------- padding ----------

  function Zeros(n: nat): seq<byte> {
    seq(n, _ => 0)
  }

  function Pad(input: seq<byte>, length: nat): seq<byte> {
    if |input| >= length then input[|input| - length..] else Zeros(length - |input|) + input
  }

  method PadInto(input: seq<byte>, length: nat) returns (output: array<byte>)
    ensures fresh(output) && output[..] == Pad(input, length)
  {
    if |input| >= length {
      var tail := input[|input| - length..];
      output := new byte[length](i requires 0 <= i < |tail| => tail[i]);
      return;
    }
    output := new byte[length](_ => 0);
    var offset := length - |input|;
    for i := 0 to |input|
      invariant forall k | 0 <= k < offset :: output[k] == 0
      invariant forall k | 0 <= k < i :: output[offset + k] == input[k]
    {
      output[offset + i] := input[i];
    }
  }

  /** The Deno `pad` keeps the leading bytes of an input that is too long. */
  function PadDeno(buffer: seq<byte>, length: nat): seq<byte> {
    if |buffer| >= length then buffer[..length] else Pad(buffer, length)
  }

  method PadIntoDeno(buffer: seq<byte>, length: nat) returns (output: array<byte>)
    ensures fresh(output) && output[..] == PadDeno(buffer, length)
  {
    output := new byte[length](_ => 0);
    var part := if |buffer| >= length then buffer[..length] else buffer;
    var offset := if length >= |buffer| then length - |buffer| else 0;
    for i := 0 to |part|
      invariant forall k | 0 <= k < offset :: output[k] == 0
      invariant forall k | 0 <= k < i :: output[offset + k] == part[k]
    {
      output[offset + i] := part[i];
    }
  }

  lemma {:induction false} FromBytesConcat(a: seq<byte>, b: seq<byte>)
    ensures FromBytes(a + b) == FromBytes(a) * Pow(256, |b|) + FromBytes(b)
    decreases |b|
  {
    if b == [] {
      assert a + b == a;
    } else {
      var c, last := b[..|b| - 1], b[|b| - 1];
      FromBytesConcat(a, c);
      assert (a + b)[..|a + b| - 1] == a + c;
      assert FromBytes(a) * Pow(256, |c|) * 256 == FromBytes(a) * (256 * Pow(256, |c|));
    }
  }

  lemma {:induction false} FromBytesBound(bs: seq<byte>)
    ensures FromBytes(bs) < Pow(256, |bs|)
  {
    if bs != [] {
      FromBytesBound(bs[..|bs| - 1]);
    }
  }

  lemma {:induction false} FromBytesZeros(n: nat)
    ensures FromBytes(Zeros(n)) == 0
  {
    if n > 0 {
      FromBytesZeros(n - 1);
      assert Zeros(n)[..n - 1] == Zeros(n - 1);
    }
  }

  lemma {:induction false} FromBytesInjective(a: seq<byte>, b: seq<byte>)
    requires |a| == |b| && FromBytes(a) == FromBytes(b)
    ensures a == b
  {
    if a != [] {
      var n := |a| - 1;
      var x, y := FromBytes(a[..n]), FromBytes(b[..n]);
      assert x * 256 + a[n] == y * 256 + b[n];
      assert x == y && a[n] == b[n];
      FromBytesInjective(a[..n], b[..n]);
      assert a == a[..n] + [a[n]] && b == b[..n] + [b[n]];
    }
  }

  /** Byte i from the left is the digit of 256^(n - 1 - i). */
  lemma DigitAt(bs: seq<byte>, i: nat)
    requires i < |bs|
    ensures Pow(256, |bs| - 1 - i) > 0
    ensures bs[i] == FromBytes(bs) / Pow(256, |bs| - 1 - i) % 256
  {
    HighPart(bs, i + 1);
    assert bs[..i + 1][..i] == bs[..i];
    LastDigit(bs[..i + 1]);
  }

  lemma LastDigit(bs: seq<byte>)
    requires bs != []
    ensures FromBytes(bs) % 256 == bs[|bs| - 1]
  {
  }

  /** Dividing away the low digits leaves the number of the high ones. */
  lemma HighPart(bs: seq<byte>, i: nat)
    requires i <= |bs|
    ensures Pow(256, |bs| - i) > 0
    ensures FromBytes(bs) / Pow(256, |bs| - i) == FromBytes(bs[..i])
  {
    var high, low := bs[..i], bs[i..];
    PowNat(256, |low|);
    FromBytesConcat(high, low);
    FromBytesBound(low);
    assert bs == high + low;
    DivUnique(FromBytes(bs), FromBytes(high), FromBytes(low), Pow(256, |low|));
  }

  /** Padding to L bytes keeps the number modulo 256^L. */
  lemma PadDecodes(input: seq<byte>, length: nat)
    ensures |Pad(input, length)| == length && Pow(256, length) > 0
    ensures FromBytes(Pad(input, length)) == FromBytes(input) % Pow(256, length)
  {
    PowNat(256, length);
    var padded := Pad(input, length);
    FromBytesBound(padded);
    if |input| >= length {
      var cut := |input| - length;
      FromBytesConcat(input[..cut], padded);
      assert input == input[..cut] + padded;
      ModUnique(FromBytes(input), FromBytes(input[..cut]), FromBytes(padded), Pow(256, length));
    } else {
      FromBytesConcat(Zeros(length - |input|), input);
      FromBytesZeros(length - |input|);
      assert FromBytes(padded) == 0 * Pow(256, |input|) + FromBytes(input);
      ModUnique(FromBytes(input), 0, FromBytes(padded), Pow(256, length));
    }
  }

  /** The Deno padding drops the lowest digits of an input that is too long. */
  lemma PadDenoDecodes(input: seq<byte>, length: nat)
    ensures |PadDeno(input, length)| == length
    ensures |input| <= length ==> FromBytes(PadDeno(input, length)) == FromBytes(input)
    ensures |input| > length ==>
      Pow(256, |input| - length) > 0 && FromBytes(PadDeno(input, length)) == FromBytes(input) / Pow(256, |input| - length)
  {
    if |input| < length {
      FromBytesConcat(Zeros(length - |input|), input);
      FromBytesZeros(length - |input|);
    } else {
      HighPart(input, length);
    }
  }

  /** The number made of the lowest `width` digits: n modulo 256^width. */
  function Truncated(n: nat, width: nat): nat {
    if width == 0 then 0 else Truncated(n / 256, width - 1) * 256 + n % 256
  }

  lemma ResidueStep(n: nat, p: nat)
    requires p > 0
    ensures n % (256 * p) == n / 256 % p * 256 + n % 256
  {
    var q, t := n / 256, n / 256 % p;
    var k := q / p;
    assert q == p * k + t;
    assert 256 * (p * k) == k * (256 * p);
    ModUnique(n, k, t * 256 + n % 256, 256 * p);
  }

  lemma {:induction false} TruncatedIs(n: nat, width: nat)
    ensures Pow(256, width) > 0 && Truncated(n, width) == n % Pow(256, width)
  {
    PowNat(256, width);
    if width > 0 {
      TruncatedIs(n / 256, width - 1);
      ResidueStep(n, Pow(256, width - 1));
    }
  }

  function Field(n: nat, width: nat): seq<byte> {
    Pad(ToBytes(n), width)
  }

  /** Two numbers share a fixed-width field exactly when they agree modulo 256^width;
      below that bound the field determines the number. */
  lemma FieldInjective(a: nat, b: nat, width: nat)
    ensures Pow(256, width) > 0
    ensures Field(a, width) == Field(b, width) <==> a % Pow(256, width) == b % Pow(256, width)
    ensures a < Pow(256, width) && b < Pow(256, width) ==> (Field(a, width) == Field(b, width) <==> a == b)
  {
    var bound := Pow(256, width);
    PadDecodes(ToBytes(a), width);
    PadDecodes(ToBytes(b), width);
    DecodeEncode(a);
    DecodeEncode(b);
    if a % bound == b % bound {
      FromBytesInjective(Field(a, width), Field(b, width));
    }
    if a < bound { ModUnique(a, 0, a, bound); }
    if b < bound { ModUnique(b, 0, b, bound); }
  }

  // ---------- constant-time comparison ----------

  function Xor(a: nat, b: nat): nat {
    if a == 0 && b == 0 then 0 else (a % 2 + b % 2) % 2 + 2 * Xor(a / 2, b / 2)
  }

  function Or(a: nat, b: nat): nat {
    if a == 0 && b == 0 then 0
    else (if a % 2 + b % 2 > 0 then 1 else 0) + 2 * Or(a / 2, b / 2)
  }

  /** Bit j of a number, counted from the lowest. */
  function Bit(n: nat, j: nat): nat {
    if j == 0 then n % 2 else Bit(n / 2, j - 1)
  }

  lemma LowBit(p: nat, q: nat)
    requires p < 2
    ensures (p + 2 * q) % 2 == p && (p + 2 * q) / 2 == q
  {
  }

  lemma {:induction false} XorParts(a: nat, b: nat)
    ensures Xor(a, b) % 2 == (a % 2 + b % 2) % 2 && Xor(a, b) / 2 == Xor(a / 2, b / 2)
  {
    LowBit((a % 2 + b % 2) % 2, Xor(a / 2, b / 2));
  }

  lemma {:induction false} OrParts(a: nat, b: nat)
    ensures Or(a, b) % 2 == (if a % 2 + b % 2 > 0 then 1 else 0) && Or(a, b) / 2 == Or(a / 2, b / 2)
  {
    LowBit(if a % 2 + b % 2 > 0 then 1 else 0, Or(a / 2, b / 2));
  }

  /** Bit j of the exclusive or is set exactly when one of the two bits is. */
  lemma {:induction false} XorBit(a: nat, b: nat, j: nat)
    ensures Bit(Xor(a, b), j) == 1 <==> Bit(a, j) != Bit(b, j)
    ensures Bit(Xor(a, b), j) <= 1
    decreases j
  {
    XorParts(a, b);
    if j > 0 {
      XorBit(a / 2, b / 2, j - 1);
    }
  }

  /** Bit j of the inclusive or is clear exactly when both bits are. */
  lemma {:induction false} OrBit(a: nat, b: nat, j: nat)
    ensures Bit(Or(a, b), j) == 0 <==> Bit(a, j) == 0 && Bit(b, j) == 0
    ensures Bit(Or(a, b), j) <= 1
    decreases j
  {
    OrParts(a, b);
    if j > 0 {
      OrBit(a / 2, b / 2, j - 1);
    }
  }

  lemma {:induction false} XorZero(a: nat, b: nat)
    ensures Xor(a, b) == 0 <==> a == b
  {
    if a != 0 || b != 0 {
      XorZero(a / 2, b / 2);
    }
  }

  lemma {:induction false} OrZero(a: nat, b: nat)
    ensures Or(a, b) == 0 <==> a == 0 && b == 0
  {
    if a != 0 || b != 0 {
      OrZero(a / 2, b / 2);
    }
  }

  method VerifyConstantTime(expected: seq<byte>, actual: seq<byte>) returns (same: bool)
    ensures same <==> expected == actual
  {
    var maxLength := if |expected| >= |actual| then |expected| else |actual|;
    var diff := 0;
    for index := 0 to maxLength
      invariant diff == 0 <==>
        forall k | 0 <= k < index ::
          (if k < |expected| then expected[k] else 0) == (if k < |actual| then actual[k] else 0)
    {
      var expectedByte := if index < |expected| then expected[index] else 0;
      var actualByte := if index < |actual| then actual[index] else 0;
      XorZero(expectedByte, actualByte);
      OrZero(diff, Xor(expectedByte, actualByte));
      diff := Or(diff, Xor(expectedByte, actualByte));
    }
    if |expected| != |actual| {
      OrZero(diff, 1);
      diff := Or(diff, 1);
    }
    same := diff == 0;
    assert same ==> expected == actual;
  }

  method VerifyHamkDeno(expected: seq<byte>, actual: seq<byte>) returns (same: bool)
    ensures same <==> expected != [] && expected == actual
  {
    if |expected| == 0 || |actual| == 0 {
      return false;
    }
    same := VerifyConstantTime(expected, actual);
  }

  method VerifyHamk(expected: seq<byte>, actual: seq<byte>) returns (same: bool)
    ensures same <==> expected != [] && expected == actual
  {
    if |expected| == 0 || |actual| == 0 || |expected| != |actual| {
      return false;
    }
    same := expected == actual;
  }
}
