/** Divisibility and powers of two, as the mining code needs them. */
module Arithmetic {
  predicate Divides(d: int, n: int) {
    d != 0 && n % d == 0
  }

  function Pow2(k: nat): (r: nat)
    ensures r > 0
  {
    if k == 0 then 1 else 2 * Pow2(k - 1)
  }

  ghost predicate IsPrime(p: int) {
    p >= 2 && forall d: nat | 1 < d < p :: !Divides(d, p)
  }

  function Abs(x: int): (r: nat)
    ensures r == x || r == -x
  {
    if x < 0 then -x else x
  }

  lemma DividesByQuotient(d: int, n: int, q: int)
    requires d != 0 && n == d * q
    ensures Divides(d, n)
  {
    if d > 0 { QuotientIsUnique(d, n, q); } else { QuotientIsUnique(-d, n, -q); assert n % d == n % -d; }
  }

  lemma {:induction false} QuotientIsUnique(d: int, n: int, q: int)
    requires d > 0 && n == d * q
    ensures n % d == 0 && n / d == q
  {
    var r := n % d;
    var k := n / d;
    assert n == d * k + r;
    assert d * (q - k) == r;
    if q - k >= 1 {
      MulMono(d, 1, q - k);
    } else if q - k <= -1 {
      MulMono(d, q - k, -1);
    }
  }

  lemma MulMono(d: int, a: int, b: int)
    requires d >= 0 && a <= b
    ensures d * a <= d * b
  {
    assert d * (b - a) >= 0;
  }

  /** The residue is the one number in [0, d) that differs from n by a multiple of d. */
  lemma ResidueIsUnique(d: int, n: int, q: int, r: int)
    requires 0 <= r < d && n == d * q + r
    ensures n % d == r && n / d == q
  {
    QuotientIsUnique(d, n - r, q);
    var k := n / d;
    var s := n % d;
    assert d * (q - k) == s - r;
    if q - k >= 1 {
      MulMono(d, 1, q - k);
    } else if q - k <= -1 {
      MulMono(d, q - k, -1);
    }
  }

  lemma DividesLinear(d: int, u: int, v: int, a: int, b: int)
    requires Divides(d, u) && Divides(d, v)
    ensures Divides(d, a * u + b * v)
  {
    var j, k := u / d, v / d;
    assert u == d * j && v == d * k;
    assert a * u + b * v == d * (a * j + b * k) by {
      assert a * (d * j) == d * (a * j);
      assert b * (d * k) == d * (b * k);
    }
    DividesByQuotient(d, a * u + b * v, a * j + b * k);
  }

  lemma DividesBounded(d: int, n: int)
    requires Divides(d, n) && 0 <= n < d
    ensures n == 0
  {
  }

  lemma SameResidue(d: int, a: int, b: int)
    requires d > 0
    ensures a % d == b % d <==> Divides(d, a - b)
  {
    var j, k := a / d, b / d;
    assert a == d * j + a % d && b == d * k + b % d;
    if a % d == b % d {
      assert a - b == d * (j - k);
      DividesByQuotient(d, a - b, j - k);
    }
    if Divides(d, a - b) {
      var q := (a - b) / d;
      assert a == d * (q + k) + b % d;
      ResidueIsUnique(d, a, q + k, b % d);
    }
  }

  lemma {:induction false} Pow2Sum(a: nat, b: nat)
    ensures Pow2(a + b) == Pow2(a) * Pow2(b)
  {
    if a > 0 {
      Pow2Sum(a - 1, b);
      DoubleProduct(Pow2(a - 1), Pow2(b));
    }
  }

  lemma DoubleProduct(x: int, y: int)
    ensures (2 * x) * y == 2 * (x * y)
  {
  }

  lemma {:induction false} Pow2Mono(a: nat, b: nat)
    requires a <= b
    ensures Pow2(a) <= Pow2(b)
  {
    if a < b { Pow2Mono(a, b - 1); }
  }

  // ---------- primes ----------

  /** A prime that divides a product divides a factor: a * x + p * y == 1 when p does not
      divide a, for some x and y. */
  lemma {:induction false} PrimeDividesProduct(p: int, a: int, b: int)
    requires IsPrime(p) && Divides(p, a * b)
    ensures Divides(p, a) || Divides(p, b)
  {
    hide Divides;
    if !Divides(p, a) {
      var m := Residue(p, a);
      ReduceFactor(p, a, b, m);
      SmallFactor(p, m, b);
    }
  }

  lemma Residue(p: int, a: int) returns (m: int)
    requires p >= 2 && !Divides(p, a)
    ensures 0 < m < p && m == a % p && Divides(p, a - m)
  {
    m := a % p;
    SameResidue(p, a, m);
  }

  lemma ReduceFactor(p: int, a: int, b: int, m: int)
    requires Divides(p, a * b) && Divides(p, a - m)
    ensures Divides(p, m * b)
  {
    hide Divides;
    DividesLinear(p, a * b, a - m, 1, -b);
    assert 1 * (a * b) + (-b) * (a - m) == m * b;
  }

  lemma {:induction false} SmallFactor(p: int, m: int, b: int)
    requires IsPrime(p) && 0 < m < p && Divides(p, m * b)
    ensures Divides(p, b)
    decreases m
  {
    if m == 1 {
      assert m * b == b;
    } else {
      // p % m < m, and (p % m) * b == p * b - (p / m) * (m * b)
      var r, q := p % m, p / m;
      assert p == m * q + r;
      assert !Divides(m, p);
      DividesByQuotient(p, p * b, b);
      assert r > 0;
      hide Divides;
      DividesLinear(p, p * b, m * b, 1, -q);
      assert 1 * (p * b) + (-q) * (m * b) == r * b;
      SmallFactor(p, r, b);
    }
  }

  // ---------- int_invert ----------

  /** Two consecutive rows of the extended Euclidean algorithm on (p, a). */
  ghost predicate EuclidRows(p: int, a: int, rem0: int, rem1: int, aux0: int, aux1: int) {
    && 0 <= rem1 < rem0 <= p
    && Divides(p, a * aux0 - rem0) && Divides(p, a * aux1 - rem1)
    && Abs(aux0) * rem1 + Abs(aux1) * rem0 == p
    && (aux0 <= 0 <= aux1 || aux1 <= 0 <= aux0)
  }

  lemma EuclidStart(p: int, a: nat)
    requires p >= 2
    ensures EuclidRows(p, a, p, a % p, 0, 1)
  {
    SameResidue(p, a, a % p);
    DividesByQuotient(p, -p, -1);
    EuclidFirstRows(p, a, a % p);
  }

  lemma EuclidFirstRows(p: int, a: int, r: int)
    requires 0 <= r < p && Divides(p, a - r) && Divides(p, -p)
    ensures EuclidRows(p, a, p, r, 0, 1)
  {
    hide Divides;
    assert a * 0 - p == -p && a * 1 - r == a - r;
    assert Abs(0) * r + Abs(1) * p == p;
  }

  lemma EuclidStep(p: int, a: int, rem0: int, rem1: int, aux0: int, aux1: int)
    requires p >= 2 && EuclidRows(p, a, rem0, rem1, aux0, aux1) && rem1 >= 1
    ensures EuclidRows(p, a, rem1, rem0 % rem1, aux1, -(rem0 / rem1) * aux1 + aux0)
    ensures 1 <= rem0 / rem1 <= p && Abs(-(rem0 / rem1) * aux1 + aux0) <= p && Abs(-(rem0 / rem1) * aux1) <= p
  {
    hide Divides;
    var q, r := rem0 / rem1, rem0 % rem1;
    EuclidQuotient(rem0, rem1);
    EuclidCongruence(p, a, rem0, rem1, aux0, aux1, q, r, -q * aux1 + aux0);
    hide Abs;
    EuclidSizes(p, rem0, rem1, aux0, aux1, q, r, -q * aux1 + aux0);
  }

  lemma EuclidQuotient(rem0: int, rem1: int)
    requires 1 <= rem1 < rem0
    ensures rem0 == rem1 * (rem0 / rem1) + rem0 % rem1 && 1 <= rem0 / rem1 <= rem0
  {
    MulMono(rem0 / rem1, 1, rem1);
  }

  lemma Regroup(q: int, x0: int, x1: int, rem1: int, r: int)
    ensures x1 * r + (q * x1 + x0) * rem1 == x0 * rem1 + x1 * (rem1 * q + r)
  {
    assert (q * x1 + x0) * rem1 == (q * x1) * rem1 + x0 * rem1;
    assert (q * x1) * rem1 == x1 * (rem1 * q);
    assert x1 * (rem1 * q + r) == x1 * (rem1 * q) + x1 * r;
  }

  lemma AbsOfStep(q: int, aux0: int, aux1: int)
    requires q >= 1 && (aux0 <= 0 <= aux1 || aux1 <= 0 <= aux0)
    ensures Abs(-q * aux1 + aux0) == q * Abs(aux1) + Abs(aux0)
    ensures Abs(-q * aux1) == q * Abs(aux1)
    ensures aux1 <= 0 <= -q * aux1 + aux0 || -q * aux1 + aux0 <= 0 <= aux1
  {
    if aux1 >= 0 {
      MulMono(q, 0, aux1);
    } else {
      MulMono(q, aux1, 0);
      assert q * -aux1 == -(q * aux1);
    }
    assert -q * aux1 == -(q * aux1);
  }

  lemma EuclidSizes(p: int, rem0: int, rem1: int, aux0: int, aux1: int, q: int, r: int, aux2: int)
    requires 1 <= rem1 && 0 <= r && 1 <= q && rem0 == rem1 * q + r && aux2 == -q * aux1 + aux0
    requires Abs(aux0) * rem1 + Abs(aux1) * rem0 == p
    requires aux0 <= 0 <= aux1 || aux1 <= 0 <= aux0
    ensures Abs(aux1) * r + Abs(aux2) * rem1 == p && Abs(aux2) <= p && Abs(-q * aux1) <= p
    ensures aux1 <= 0 <= aux2 || aux2 <= 0 <= aux1
  {
    AbsOfStep(q, aux0, aux1);
    Regroup(q, Abs(aux0), Abs(aux1), rem1, r);
    hide Abs;
    MulMono(Abs(aux1), 0, r);
    MulMono(Abs(aux2), 1, rem1);
  }

  lemma EuclidCongruence(p: int, a: int, rem0: int, rem1: int, aux0: int, aux1: int, q: int, r: int, aux2: int)
    requires Divides(p, a * aux0 - rem0) && Divides(p, a * aux1 - rem1)
    requires rem0 == rem1 * q + r && aux2 == -q * aux1 + aux0
    ensures Divides(p, a * aux2 - r)
  {
    DividesLinear(p, a * aux0 - rem0, a * aux1 - rem1, 1, -q);
    calc {
      1 * (a * aux0 - rem0) + (-q) * (a * aux1 - rem1);
    ==
      a * aux0 - rem0 - q * (a * aux1) + q * rem1;
    ==  { assert q * (a * aux1) == a * (q * aux1); assert a * aux2 == a * aux0 - a * (q * aux1); }
      a * aux2 - rem0 + q * rem1;
    ==
      a * aux2 - r;
    }
  }

  /** For a prime the remainders never skip 1, where the inverse can be read off. */
  lemma EuclidEnd(p: int, a: int, rem0: int, rem1: int, aux0: int, aux1: int)
    requires IsPrime(p) && EuclidRows(p, a, rem0, rem1, aux0, aux1) && rem1 <= 1 < rem0
    requires rem0 < p || rem1 != 0
    ensures rem1 == 1 && -p < aux1 < p && aux1 != 0
    ensures (a * aux1) % p == 1 && (a * (aux1 + p)) % p == 1
  {
    hide IsPrime, Divides;
    if rem1 == 0 {
      PrimeHasNoFactor(p, rem0, Abs(aux1));
    }
    MulMono(Abs(aux1), 2, rem0);
    EuclidInverse(p, a, aux1);
  }

  lemma PrimeHasNoFactor(p: int, d: int, q: int)
    requires IsPrime(p) && 1 < d < p
    ensures d * q != p
  {
    if d * q == p { DividesByQuotient(d, p, q); }
  }

  lemma EuclidInverse(p: int, a: int, x: int)
    requires p >= 2 && Divides(p, a * x - 1)
    ensures (a * x) % p == 1 && (a * (x + p)) % p == 1 && x != 0
  {
    SameResidue(p, a * x, 1);
    ResidueIsUnique(p, 1, 0, 1);
    assert a * (x + p) - a * x == p * a;
    DividesByQuotient(p, p * a, a);
    hide Divides;
    SameResidue(p, a * (x + p), a * x);
    assert x == 0 ==> a * x == 0;
  }

  predicate IsInt32(x: int) {
    -0x8000_0000 <= x < 0x8000_0000
  }

  /** prime.cpp, int_invert: three registers take turns as the newest row. */
  method IntInvert(a: nat, nPrime: nat) returns (inverse: nat)
    requires IsPrime(nPrime) && nPrime < 0x8000_0000 && a % nPrime != 0
    ensures 0 < inverse < nPrime && (a * inverse) % nPrime == 1
  {
    var rem0, rem1, rem2 := nPrime, a % nPrime, 0;
    var aux0, aux1, aux2 := 0, 1, 0;
    var quotient, inv: int;
    EuclidStart(nPrime, a);
    hide EuclidRows, IsPrime, Divides;
    while true
      invariant EuclidRows(nPrime, a, rem0, rem1, aux0, aux1) && 0 <= rem1 < rem0 && 1 < rem0
      invariant rem0 < nPrime || rem1 != 0
      decreases rem1
    {
      if rem1 <= 1 {
        EuclidEnd(nPrime, a, rem0, rem1, aux0, aux1);
        inv := aux1;
        break;
      }
      EuclidStep(nPrime, a, rem0, rem1, aux0, aux1);
      RowsBound(nPrime, a, rem0, rem1, aux0, aux1);
      rem2 := rem0 % rem1;
      quotient := rem0 / rem1;
      aux2 := -quotient * aux1 + aux0;
      assert IsInt32(quotient) && IsInt32(-quotient * aux1) && IsInt32(aux2);
      if rem2 <= 1 {
        EuclidEnd(nPrime, a, rem1, rem2, aux1, aux2);
        inv := aux2;
        break;
      }
      EuclidStep(nPrime, a, rem1, rem2, aux1, aux2);
      rem0 := rem1 % rem2;
      quotient := rem1 / rem2;
      aux0 := -quotient * aux2 + aux1;
      assert IsInt32(quotient) && IsInt32(-quotient * aux2) && IsInt32(aux0);
      if rem0 <= 1 {
        EuclidEnd(nPrime, a, rem2, rem0, aux2, aux0);
        inv := aux0;
        break;
      }
      EuclidStep(nPrime, a, rem2, rem0, aux2, aux0);
      rem1 := rem2 % rem0;
      quotient := rem2 / rem0;
      aux1 := -quotient * aux0 + aux2;
      assert IsInt32(quotient) && IsInt32(-quotient * aux0) && IsInt32(aux1);
    }
    if inv < 0 {
      inv := inv + nPrime;
    }
    inverse := inv;
  }

  lemma RowsBound(p: int, a: int, rem0: int, rem1: int, aux0: int, aux1: int)
    requires EuclidRows(p, a, rem0, rem1, aux0, aux1)
    ensures rem0 <= p
  {
  }
}
