/** Powers and residues: the square-and-multiply loops of both implementations
    against the power they compute. */
module ModArith {
  import opened Wrappers

  function Pow(b: int, e: nat): int {
    if e == 0 then 1 else b * Pow(b, e - 1)
  }

  predicate Cong(a: int, b: int, n: int)
    requires n > 0
  {
    a % n == b % n
  }

  lemma MulAtLeast(d: int, n: int)
    requires n > 0
    ensures d >= 1 ==> d * n >= n
    ensures d <= -1 ==> d * n <= -n
  {
  }

  lemma ModUnique(x: int, q: int, r: int, n: int)
    requires n > 0 && 0 <= r < n && x == q * n + r
    ensures x % n == r
  {
    var d := q - x / n;
    assert x == n * (x / n) + x % n;
    assert d * n == q * n - (x / n) * n;
    assert d * n == x % n - r;
    MulAtLeast(d, n);
  }

  lemma DivUnique(x: int, q: int, r: int, n: int)
    requires n > 0 && 0 <= r < n && x == q * n + r
    ensures x / n == q
  {
    ModUnique(x, q, r, n);
    var d := q - x / n;
    assert x == n * (x / n) + x % n;
    assert d * n == q * n - (x / n) * n;
    MulAtLeast(d, n);
  }

  lemma ShiftMod(b: int, k: int, n: int)
    requires n > 0
    ensures (b + k * n) % n == b % n
  {
    assert b == n * (b / n) + b % n;
    assert b + k * n == (b / n + k) * n + b % n by {
      assert (b / n + k) * n == (b / n) * n + k * n;
    }
    ModUnique(b + k * n, b / n + k, b % n, n);
  }

  lemma CongQuotient(a: int, b: int, n: int) returns (k: int)
    requires n > 0 && Cong(a, b, n)
    ensures a == b + k * n
  {
    k := a / n - b / n;
    assert a == n * (a / n) + a % n && b == n * (b / n) + b % n;
    assert k * n == (a / n) * n - (b / n) * n;
  }

  lemma CongScale(a: int, b: int, c: int, n: int)
    requires n > 0 && Cong(a, b, n)
    ensures Cong(a * c, b * c, n)
  {
    var k := CongQuotient(a, b, n);
    assert a * c == b * c + (k * c) * n by {
      assert (b + k * n) * c == b * c + (k * n) * c;
      assert (k * n) * c == (k * c) * n;
    }
    ShiftMod(b * c, k * c, n);
  }

  lemma CongMul(a: int, b: int, c: int, d: int, n: int)
    requires n > 0 && Cong(a, b, n) && Cong(c, d, n)
    ensures Cong(a * c, b * d, n)
  {
    CongScale(a, b, c, n);
    CongScale(c, d, b, n);
    assert b * c == c * b && b * d == d * b;
  }

  lemma CongMod(a: int, n: int)
    requires n > 0
    ensures Cong(a % n, a, n)
  {
  }

  lemma {:induction false} PowCong(a: int, b: int, e: nat, n: int)
    requires n > 0 && Cong(a, b, n)
    ensures Cong(Pow(a, e), Pow(b, e), n)
  {
    if e > 0 {
      PowCong(a, b, e - 1, n);
      CongMul(a, b, Pow(a, e - 1), Pow(b, e - 1), n);
    }
  }

  lemma {:induction false} PowAdd(b: int, e: nat, f: nat)
    ensures Pow(b, e + f) == Pow(b, e) * Pow(b, f)
  {
    if e > 0 {
      PowAdd(b, e - 1, f);
      assert b * (Pow(b, e - 1) * Pow(b, f)) == (b * Pow(b, e - 1)) * Pow(b, f);
    }
  }

  lemma Regroup(a: int, b: int, p: int, q: int)
    ensures (a * b) * (p * q) == (a * p) * (b * q)
  {
    assert (a * b) * (p * q) == a * (b * (p * q));
    assert b * (p * q) == p * (b * q);
    assert a * (p * (b * q)) == (a * p) * (b * q);
  }

  lemma {:induction false} PowOfProduct(a: int, b: int, e: nat)
    ensures Pow(a * b, e) == Pow(a, e) * Pow(b, e)
  {
    if e > 0 {
      PowOfProduct(a, b, e - 1);
      Regroup(a, b, Pow(a, e - 1), Pow(b, e - 1));
    }
  }

  lemma {:induction false} PowOfPow(b: int, e: nat, f: nat)
    ensures e * f >= 0 && Pow(Pow(b, e), f) == Pow(b, e * f)
  {
    if f == 0 {
      assert e * f == 0;
    } else {
      PowOfPow(b, e, f - 1);
      assert e * f == e + e * (f - 1);
      PowAdd(b, e, e * (f - 1));
    }
  }

  lemma PowHalf(b: int, e: nat)
    ensures Pow(b, e) == Pow(b * b, e / 2) * (if e % 2 == 1 then b else 1)
  {
    var h := e / 2;
    PowOfProduct(b, b, h);
    PowAdd(b, h, h);
    if e % 2 == 1 {
      assert e == 1 + 2 * h;
      assert Pow(b, e) == b * Pow(b, 2 * h);
    } else {
      assert e == h + h;
    }
  }

  lemma {:induction false} PowNat(b: nat, e: nat)
    ensures Pow(b, e) >= 0
    ensures b > 0 ==> Pow(b, e) > 0
  {
    if e > 0 {
      PowNat(b, e - 1);
    }
  }

  // ---------- the Rust loop ----------

  function Mod(left: nat, modulus: nat): nat {
    if modulus == 0 then 0 else left % modulus
  }

  function Product(a: nat, b: nat): nat { a * b }

  /** What `powermod` returns, for every modulus the type admits. */
  function PowMod(base: nat, exponent: nat, modulus: nat): nat {
    if exponent == 0 then 1
    else if modulus == 0 then 0
    else Pow(base, exponent) % modulus
  }

  /** It is the power modulo the modulus, except for exponent 0 modulo 1 (and modulus 0). */
  lemma PowModIsPower(base: nat, exponent: nat, modulus: nat)
    requires modulus >= 1
    ensures PowMod(base, exponent, modulus) == Pow(base, exponent) % modulus <==> modulus >= 2 || exponent > 0
  {
  }

  /** Modulo 1 and modulo 0 it is 0, but 1 for exponent 0. */
  lemma PowModDegenerate(base: nat, exponent: nat, modulus: nat)
    requires modulus <= 1
    ensures PowMod(base, exponent, modulus) == if exponent == 0 then 1 else 0
  {
  }

  // One round of square-and-multiply keeps result * base^exp in its residue class.
  lemma Round(result: int, base: int, exp: nat, n: int)
    requires n > 0 && exp > 0
    ensures var result' := if exp % 2 == 1 then (result * base) % n else result;
            var base' := if exp / 2 > 0 then (base * base) % n else base;
            Cong(result' * Pow(base', exp / 2), result * Pow(base, exp), n)
  {
    var h := exp / 2;
    var square := if h > 0 then (base * base) % n else base;
    var kept := if exp % 2 == 1 then (result * base) % n else result;
    var exact := if exp % 2 == 1 then result * base else result;
    assert Cong(kept, exact, n) by {
      CongMod(result * base, n);
    }
    SquareCong(base, h, n);
    PowHalf(base, exp);
    RegroupOdd(result, base, Pow(base * base, h), exp % 2 == 1);
    ProductCong(kept, exact, Pow(square, h), Pow(base * base, h), result * Pow(base, exp), n);
  }

  lemma ProductCong(a: int, b: int, c: int, d: int, target: int, n: int)
    requires n > 0 && Cong(a, b, n) && Cong(c, d, n) && b * d == target
    ensures Cong(a * c, target, n)
  {
    CongMul(a, b, c, d, n);
  }

  lemma SquareCong(base: int, h: nat, n: int)
    requires n > 0
    ensures Cong(Pow(if h > 0 then (base * base) % n else base, h), Pow(base * base, h), n)
  {
    if h > 0 {
      CongMod(base * base, n);
      PowCong((base * base) % n, base * base, h, n);
    }
  }

  lemma RegroupOdd(result: int, base: int, p: int, odd: bool)
    ensures (if odd then result * base else result) * p == result * (p * (if odd then base else 1))
  {
    if odd {
      assert (result * base) * p == result * (base * p);
    }
  }

  method PowerMod(base: nat, exponent: nat, modulus: nat) returns (result: nat)
    ensures result == PowMod(base, exponent, modulus)
  {
    if exponent == 0 {
      return 1;
    }
    result := 1;
    var square := Mod(base, modulus);
    var exp := exponent;
    if modulus > 0 {
      CongMod(base, modulus);
      PowCong(square, base, exponent, modulus);
    }
    while exp != 0
      invariant modulus > 0 ==> Cong(result * Pow(square, exp), Pow(base, exponent), modulus)
      invariant exp == 0 ==> result == Mod(result, modulus)
      decreases exp
    {
      ghost var r, s, e := result, square, exp;
      if exp % 2 == 1 {
        result := Mod(Product(result, square), modulus);
      }
      exp := exp / 2;
      if exp != 0 {
        square := Mod(Product(square, square), modulus);
      }
      if modulus > 0 {
        Round(r, s, e, modulus);
      }
    }
  }

  // ---------- the Deno loop ----------

  datatype PowError = NegativeExponent | DivisionByZero

  // JavaScript's remainder takes the sign of the dividend.
  function JsRemainder(a: int, n: nat): int
    requires n > 0
  {
    if a >= 0 then a % n else -((-a) % n)
  }

  function JsMod(a: int, n: nat): int
    requires n > 0
  {
    var r := JsRemainder(a, n);
    if r < 0 then r + n else r
  }

  /** Reducing a possibly negative number gives its least non-negative residue. */
  lemma JsModIsResidue(a: int, n: nat)
    requires n > 0
    ensures JsMod(a, n) == a % n && 0 <= JsMod(a, n) < n
  {
    if a < 0 {
      var q, r := (-a) / n, (-a) % n;
      assert -a == n * q + r;
      if r == 0 {
        assert a == (-q) * n + 0;
        ModUnique(a, -q, 0, n);
      } else {
        assert (-q - 1) * n == -(n * q) - n;
        ModUnique(a, -q - 1, n - r, n);
      }
    }
  }

  method PowerModDeno(g: int, x: int, n: nat) returns (outcome: Result<nat, PowError>)
    ensures outcome ==
      if x < 0 then Err(NegativeExponent)
      else if n == 0 then Err(DivisionByZero)
      else Ok(Pow(g, x) % n)
  {
    if x < 0 {
      return Err(NegativeExponent);
    }
    if n == 0 {
      return Err(DivisionByZero);
    }
    var base := JsMod(g, n);
    var exp := x;
    var result := 1;
    JsModIsResidue(g, n);
    CongMod(g, n);
    PowCong(base, g, x, n);
    while exp > 0
      invariant 0 <= exp && 0 <= base && 0 <= result
      invariant Cong(result * Pow(base, exp), Pow(g, x), n)
      decreases exp
    {
      Round(result, base, exp, n);
      if exp % 2 == 1 {
        JsModIsResidue(result * base, n);
        result := JsMod(result * base, n);
      }
      exp := exp / 2;
      if exp > 0 {
        JsModIsResidue(base * base, n);
        base := JsMod(base * base, n);
      }
    }
    JsModIsResidue(result, n);
    outcome := Ok(JsMod(result, n));
  }
}
