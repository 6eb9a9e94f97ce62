/** Powers and residues: the arithmetic behind the GQ round equation. */
module NumberTheory {

  function Pow(b: int, e: nat): (p: int)
    ensures b >= 0 ==> p >= 0
  {
    if e == 0 then 1 else b * Pow(b, e - 1)
  }

  lemma {:induction false} PowAdd(b: int, x: nat, y: nat)
    ensures Pow(b, x + y) == Pow(b, x) * Pow(b, y)
  {
    if x > 0 {
      PowAdd(b, x - 1, y);
      Associate(b, Pow(b, x - 1), Pow(b, y));
    }
  }

  lemma {:induction false} PowMul(b: int, x: nat, y: nat)
    ensures Pow(b, x * y) == Pow(Pow(b, x), y)
  {
    if y == 0 {
      assert x * y == 0;
    } else {
      PowMul(b, x, y - 1);
      assert x * y == x + x * (y - 1);
      PowAdd(b, x, x * (y - 1));
    }
  }

  lemma {:induction false} PowProduct(a: int, b: int, e: nat)
    ensures Pow(a * b, e) == Pow(a, e) * Pow(b, e)
  {
    if e > 0 {
      PowProduct(a, b, e - 1);
      Interchange(a, b, Pow(a, e - 1), Pow(b, e - 1));
    }
  }

  lemma {:induction false} PowOne(e: nat)
    ensures Pow(1, e) == 1
  {
    if e > 0 {
      PowOne(e - 1);
    }
  }

  lemma {:induction false} PowerOfTwo(k: nat)
    ensures Pow(2, k) >= 1 && (k > 0 ==> Pow(2, k) >= 2)
  {
    if k > 0 {
      PowerOfTwo(k - 1);
    }
  }

  lemma Associate(a: int, b: int, c: int)
    ensures (a * b) * c == a * (b * c)
  {
  }

  lemma Interchange(a: int, b: int, c: int, d: int)
    ensures (a * b) * (c * d) == (a * c) * (b * d)
  {
    Associate(a, b, c * d);
    Associate(b, c, d);
    Associate(c, b, d);
    Associate(a, c, b * d);
  }

  // ---- congruence

  /** `a` and `b` leave the same residue: they differ by a multiple of `n`. */
  ghost predicate Congruent(a: int, b: int, n: nat)
  {
    exists k: int :: a == b + k * n
  }

  lemma CongruentModulo(a: int, n: nat)
    requires n > 0
    ensures Congruent(a % n, a, n)
  {
    assert a == (a / n) * n + a % n;
    assert a % n == a + (-(a / n)) * n;
  }

  lemma CongruentResidues(a: int, b: int, n: nat)
    requires n > 0
    ensures Congruent(a, b, n) <==> a % n == b % n
  {
    if Congruent(a, b, n) {
      var k: int :| a == b + k * n;
      assert b == (b / n) * n + b % n;
      assert a == (b / n + k) * n + b % n by {
        assert (b / n + k) * n == (b / n) * n + k * n;
      }
      UniqueResidue(a, b / n + k, b % n, n);
    }
    if a % n == b % n {
      assert a == (a / n) * n + a % n && b == (b / n) * n + b % n;
      assert (a / n - b / n) * n == (a / n) * n - (b / n) * n;
      assert a == b + (a / n - b / n) * n;
    }
  }

  lemma UniqueResidue(a: int, q: int, r: int, n: nat)
    requires n > 0 && 0 <= r < n && a == q * n + r
    ensures a % n == r
  {
    var d := a / n - q;
    assert a == (a / n) * n + a % n;
    assert d * n == (a / n) * n - q * n;
    assert d * n == r - a % n;
    assert 0 - n < d * n < n;
    assert d == 0;
  }

  lemma QuotientIsUnique(a: int, q: int, r: int, n: nat)
    requires n > 0 && 0 <= r < n && a == q * n + r
    ensures a / n == q
  {
    UniqueResidue(a, q, r, n);
    assert a == (a / n) * n + a % n;
    var d := a / n - q;
    assert d * n == (a / n) * n - q * n == 0;
    assert d == 0;
  }

  lemma CongruentSymmetric(a: int, b: int, n: nat)
    requires Congruent(a, b, n)
    ensures Congruent(b, a, n)
  {
    var k: int :| a == b + k * n;
    assert b == a + (-k) * n;
  }

  lemma CongruentTransitive(a: int, b: int, c: int, n: nat)
    requires Congruent(a, b, n) && Congruent(b, c, n)
    ensures Congruent(a, c, n)
  {
    var k: int :| a == b + k * n;
    var l: int :| b == c + l * n;
    assert a == c + (k + l) * n by {
      assert (k + l) * n == k * n + l * n;
    }
  }

  lemma CongruentRefl(a: int, n: nat)
    ensures Congruent(a, a, n)
  {
    assert a == a + 0 * n;
  }

  lemma CongruentProduct(a: int, b: int, c: int, d: int, n: nat)
    requires Congruent(a, b, n) && Congruent(c, d, n)
    ensures Congruent(a * c, b * d, n)
  {
    var k: int :| a == b + k * n;
    var l: int :| c == d + l * n;
    ProductExpansion(b, k, d, l, n);
  }

  lemma ProductExpansion(b: int, k: int, d: int, l: int, n: int)
    ensures (b + k * n) * (d + l * n) == b * d + (b * l + k * (d + l * n)) * n
  {
  }

  lemma {:induction false} CongruentPower(a: int, b: int, e: nat, n: nat)
    requires Congruent(a, b, n)
    ensures Congruent(Pow(a, e), Pow(b, e), n)
  {
    if e == 0 {
      CongruentRefl(1, n);
    } else {
      CongruentPower(a, b, e - 1, n);
      CongruentProduct(a, b, Pow(a, e - 1), Pow(b, e - 1), n);
    }
  }

  /** `inverse` undoes multiplication by `a` modulo `n`. */
  ghost predicate Inverse(a: int, inverse: int, n: nat)
  {
    Congruent(a * inverse, 1, n)
  }

  ghost predicate Unit(a: int, n: nat)
  {
    exists inverse: int :: Inverse(a, inverse, n)
  }

  lemma InversePower(a: int, inverse: int, e: nat, n: nat)
    requires Inverse(a, inverse, n)
    ensures Inverse(Pow(a, e), Pow(inverse, e), n)
  {
    PowProduct(a, inverse, e);
    CongruentPower(a * inverse, 1, e, n);
    PowOne(e);
  }

  /** A factor of a unit is a unit. */
  lemma UnitFactor(a: int, b: int, n: nat)
    requires Unit(a * b, n)
    ensures Unit(a, n)
  {
    var inverse: int :| Inverse(a * b, inverse, n);
    Associate(a, b, inverse);
    assert Inverse(a, b * inverse, n);
  }

  lemma UnitCongruent(a: int, b: int, n: nat)
    requires Congruent(a, b, n) && Unit(a, n)
    ensures Unit(b, n)
  {
    var inverse: int :| Inverse(a, inverse, n);
    CongruentRefl(inverse, n);
    CongruentProduct(a, b, inverse, inverse, n);
    CongruentSymmetric(a * inverse, b * inverse, n);
    CongruentTransitive(b * inverse, a * inverse, 1, n);
    assert Inverse(b, inverse, n);
  }

  // ---- primes

  ghost predicate Prime(p: nat)
  {
    p >= 2 && forall d: nat {:trigger p % d} :: 2 <= d < p ==> p % d != 0
  }

  /** The RSA exponent is prime: no divisor up to 256, and 257 * 257 exceeds it. */
  lemma ExponentIsPrime()
    ensures Prime(65537)
  {
    assert forall d {:trigger 65537 % d} :: 2 <= d < 257 ==> 65537 % d != 0;
    forall d: nat {:trigger 65537 % d} | 2 <= d < 65537
      ensures 65537 % d != 0
    {
      if 65537 % d == 0 {
        var q := 65537 / d;
        assert d * q == 65537;
        if d >= 257 {
          if q >= 257 {
            LargeProduct(d, q);
            assert false;
          }
          assert q >= 2;
          UniqueResidue(65537, d, 0, q);
          assert false;
        }
      }
    }
  }

  lemma LargeProduct(d: int, q: int)
    requires d >= 257 && q >= 257
    ensures d * q > 65537
  {
    assert d * q >= 257 * q;
  }

  /** The inverse of `d` modulo a prime, by the division chain p = (p / d) * d + p % d. */
  function PrimeInverse(d: nat, p: nat): (inverse: nat)
    requires Prime(p) && 1 <= d < p
    ensures (d * inverse) % p == 1
    decreases d
  {
    if d == 1 then
      1
    else
      PrimeRemainder(d, p);
      var inner := PrimeInverse(p % d, p);
      PrimeInverseStep(d, p / d, p % d, p, inner);
      (p - p / d) * inner
  }

  lemma PrimeRemainder(d: nat, p: nat)
    requires Prime(p) && 2 <= d < p
    ensures 1 <= p % d < d && p == (p / d) * d + p % d && p / d <= p
  {
  }

  lemma PrimeInverseStep(d: nat, q: nat, r: nat, p: nat, inner: nat)
    requires p > 0 && p == q * d + r && q <= p && (r * inner) % p == 1
    ensures (p - q) * inner >= 0
    ensures (d * ((p - q) * inner)) % p == 1
  {
    DivisionIdentity(d, q, r, inner);
    var residue := d * ((p - q) * inner);
    assert residue == r * inner + ((d - 1) * inner) * p;
    assert Congruent(residue, r * inner, p);
    CongruentResidues(residue, r * inner, p);
  }

  lemma DivisionIdentity(d: int, q: int, r: int, inner: int)
    ensures d * ((q * d + r - q) * inner) == r * inner + ((d - 1) * inner) * (q * d + r)
  {
  }
}
