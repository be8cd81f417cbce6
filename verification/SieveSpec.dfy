/** What the sieve looks for: multipliers 2i + 1 whose chain numbers a prime of the table
    divides, and where in the arrays the multiples of a prime lie. */
module SieveSpec {
  import opened Arithmetic

  /** nFixed is the block hash times the fixed multiplier. */
  datatype Task = Task(vPrimes: seq<nat>, nPrimes: nat, nFixed: nat, nChainLength: nat)

  /** Cunningham chains of the first kind end in -1, of the second kind in +1. */
  datatype Sign = Minus | Plus

  /** The k-th number of the chain with base multiplier 2i + 1. */
  function ChainNumber(F: nat, sign: Sign, k: nat, i: nat): int {
    F * Pow2(k) * (2 * i + 1) + (if sign == Minus then -1 else 1)
  }

  ghost predicate Hits(p: nat, F: nat, sign: Sign, k: nat, i: nat) {
    Divides(p, ChainNumber(F, sign, k, i))
  }

  ghost predicate OddPrime(p: nat) {
    IsPrime(p) && p != 2 && p < 1_000_000
  }

  ghost predicate TaskOk(t: Task) {
    t.nPrimes < |t.vPrimes| && forall s | 1 <= s < |t.vPrimes| :: OddPrime(t.vPrimes[s])
  }

  /** One of the first s sieve primes divides the k-th chain number. */
  ghost predicate StruckBelow(t: Task, sign: Sign, k: nat, s: nat, i: nat) {
    exists r :: 1 <= r < s && r < |t.vPrimes| && Hits(t.vPrimes[r], t.nFixed, sign, k, i)
  }

  ghost predicate Struck(t: Task, sign: Sign, k: nat, i: nat) {
    StruckBelow(t, sign, k, t.nPrimes, i)
  }

  /** Some chain number from layer `from` to before layer `to` is struck. */
  ghost predicate AnyStruck(t: Task, sign: Sign, from: int, to: int, i: nat) {
    exists k: nat :: from <= k < to && Struck(t, sign, k, i)
  }

  lemma AnyStruckStep(t: Task, sign: Sign, from: nat, to: nat, i: nat)
    requires from <= to
    ensures AnyStruck(t, sign, from, to + 1, i) <==> AnyStruck(t, sign, from, to, i) || Struck(t, sign, to, i)
  {
    hide Struck;
    if Struck(t, sign, to, i) { assert AnyStruck(t, sign, from, to + 1, i); }
    if AnyStruck(t, sign, from, to, i) {
      var k: nat :| from <= k < to && Struck(t, sign, k, i);
      assert from <= k < to + 1;
    }
  }

  // ---------- where the multiples lie ----------

  ghost predicate Congruent(p: nat, a: int, b: int) {
    Divides(p, a - b)
  }

  lemma CongruentTrans(p: nat, a: int, b: int, c: int)
    requires Congruent(p, a, b) && Congruent(p, b, c)
    ensures Congruent(p, a, c)
  {
    DividesLinear(p, a - b, b - c, 1, 1);
  }

  lemma CongruentMul(p: nat, a: int, b: int, c: int)
    requires Congruent(p, a, b)
    ensures Congruent(p, c * a, c * b)
  {
    DividesLinear(p, a - b, a - b, c, 0);
    assert c * (a - b) + 0 * (a - b) == c * a - c * b;
  }

  lemma CongruentSym(p: nat, a: int, b: int)
    requires Congruent(p, a, b)
    ensures Congruent(p, b, a)
  {
    DividesLinear(p, a - b, a - b, -1, 0);
    assert (-1) * (a - b) + 0 * (a - b) == b - a;
  }

  lemma CongruentResidue(p: nat, a: int)
    requires p > 0
    ensures Congruent(p, a % p, a) && Congruent(p, a, a % p)
  {
    var q := a / p;
    DividesByQuotient(p, a - a % p, q);
    DividesByQuotient(p, a % p - a, -q);
  }

  lemma CongruentShift(p: nat, a: int, b: int)
    requires p > 0
    ensures Congruent(p, a + p, b) <==> Congruent(p, a, b)
    ensures Congruent(p, p - a, -a)
  {
    DividesByQuotient(p, p, 1);
    if Congruent(p, a + p, b) { DividesLinear(p, a + p - b, p, 1, -1); }
    if Congruent(p, a, b) { DividesLinear(p, a - b, p, 1, 1); }
  }

  /** If m solves G * (2m + 1) == one modulo p, the solutions are the numbers congruent to m. */
  lemma SolutionClass(p: nat, G: nat, one: int, m: nat, i: nat)
    requires OddPrime(p) && !Divides(p, G) && Congruent(p, G * (2 * m + 1), one)
    ensures Congruent(p, G * (2 * i + 1), one) <==> i % p == m % p
  {
    hide Divides;
    SameResidue(p, i, m);
    assert G * (2 * i + 1) - G * (2 * m + 1) == G * (2 * (i - m));
    if Congruent(p, G * (2 * i + 1), one) {
      CongruentSym(p, G * (2 * m + 1), one);
      CongruentTrans(p, G * (2 * i + 1), one, G * (2 * m + 1));
      PrimeDividesProduct(p, G, 2 * (i - m));
      PrimeDividesProduct(p, 2, i - m);
      OddPrimeNotTwo(p);
    }
    if Divides(p, i - m) {
      DividesLinear(p, i - m, i - m, 2 * G, 0);
      assert 2 * G * (i - m) + 0 * (i - m) == G * (2 * (i - m));
      assert Congruent(p, G * (2 * i + 1), G * (2 * m + 1));
      CongruentTrans(p, G * (2 * i + 1), G * (2 * m + 1), one);
    }
  }

  lemma OddPrimeNotTwo(p: nat)
    requires OddPrime(p)
    ensures !Divides(p, 2)
  {
  }

  /** G and inv are inverse to each other modulo p. */
  ghost predicate Inverse(p: nat, G: nat, inv: nat) {
    0 < inv < p && Congruent(p, G * inv, 1)
  }

  lemma InverseMeansUnit(p: nat, G: nat, inv: nat)
    requires OddPrime(p) && Inverse(p, G, inv)
    ensures !Divides(p, G)
  {
    assert inv * G + (-1) * (G * inv - 1) == 1;
    if Divides(p, G) {
      DividesLinear(p, G, G * inv - 1, inv, -1);
    }
  }

  /** The smallest index whose odd number 2m + 1 is congruent to c. */
  function HalfOdd(p: nat, c: nat): (m: nat) {
    (if c % 2 == 0 then c + p else c) / 2
  }

  lemma HalfOddIs(p: nat, c: nat)
    requires OddPrime(p) && 0 < c < p
    ensures HalfOdd(p, c) < p && Congruent(p, 2 * HalfOdd(p, c) + 1, c)
  {
    OddPrimeIsOdd(p);
    CongruentShift(p, c, c);
    CongruentResidue(p, c);
    assert c % p == c;
    assert 2 * HalfOdd(p, c) + 1 == if c % 2 == 0 then c + p else c;
  }

  lemma OddPrimeIsOdd(p: nat)
    requires OddPrime(p)
    ensures p % 2 == 1
  {
    assert !Divides(2, p);
  }

  lemma ClassOf(p: nat, G: nat, one: int, c: nat, i: nat)
    requires OddPrime(p) && !Divides(p, G) && 0 < c < p && Congruent(p, G * c, one)
    ensures HalfOdd(p, c) < p
    ensures Congruent(p, G * (2 * i + 1), one) <==> i % p == HalfOdd(p, c)
  {
    var m := HalfOdd(p, c);
    HalfOddIs(p, c);
    hide HalfOdd, Congruent, OddPrime;
    CongruentMul(p, 2 * m + 1, c, G);
    CongruentTrans(p, G * (2 * m + 1), G * c, one);
    SolutionClass(p, G, one, m, i);
    SmallResidue(p, m);
  }

  lemma SmallResidue(p: nat, m: nat)
    requires m < p
    ensures m % p == m
  {
  }

  lemma NegatedInverse(p: nat, G: nat, inv: nat)
    requires inv < p && Congruent(p, G * inv, 1)
    ensures Congruent(p, G * (p - inv), -1)
  {
    DividesByQuotient(p, G * p, G);
    hide Divides;
    DividesLinear(p, G * p, G * inv - 1, 1, -1);
    assert G * (p - inv) == G * p - G * inv;
    assert 1 * (G * p) + (-1) * (G * inv - 1) == G * (p - inv) - (-1);
  }

  /** The multipliers that Weave stores mark where the prime hits the layer. */
  lemma MultiplierHits(p: nat, F: nat, k: nat, inv: nat, i: nat)
    requires OddPrime(p) && Inverse(p, F * Pow2(k), inv)
    ensures HalfOdd(p, inv) < p && (Hits(p, F, Minus, k, i) <==> i % p == HalfOdd(p, inv))
    ensures HalfOdd(p, p - inv) < p && (Hits(p, F, Plus, k, i) <==> i % p == HalfOdd(p, p - inv))
  {
    var G := F * Pow2(k);
    InverseMeansUnit(p, G, inv);
    NegatedInverse(p, G, inv);
    hide HalfOdd, OddPrime, Divides, Pow2;
    ClassOf(p, G, 1, inv, i);
    ClassOf(p, G, -1, p - inv, i);
    assert ChainNumber(F, Minus, k, i) == G * (2 * i + 1) - 1;
    assert ChainNumber(F, Plus, k, i) == G * (2 * i + 1) - (-1);
  }

  /** Halving the inverse serves the next layer. */
  lemma NextInverse(p: nat, F: nat, k: nat, inv: nat)
    requires OddPrime(p) && Inverse(p, F * Pow2(k), inv)
    ensures Inverse(p, F * Pow2(k + 1), (inv * ((p + 1) / 2)) % p)
  {
    OddPrimeIsOdd(p);
    assert F * Pow2(k + 1) == 2 * (F * Pow2(k));
    hide Pow2, OddPrime;
    HalvedInverse(p, F * Pow2(k), inv, (p + 1) / 2);
  }

  lemma HalvedInverse(p: nat, G: nat, inv: nat, h: nat)
    requires p >= 2 && 2 * h == p + 1 && Congruent(p, G * inv, 1)
    ensures Inverse(p, 2 * G, (inv * h) % p)
  {
    var next := (inv * h) % p;
    CongruentResidue(p, inv * h);
    CongruentOnce(p);
    hide Congruent;
    CongruentMul(p, next, inv * h, 2 * G);
    CongruentMul(p, G * inv, 1, p + 1);
    assert (p + 1) * (G * inv) == (2 * G) * (inv * h) by {
      assert (2 * h) * (G * inv) == (2 * G) * (inv * h);
    }
    CongruentTrans(p, (2 * G) * next, (2 * G) * (inv * h), (p + 1) * 1);
    CongruentTrans(p, (2 * G) * next, p + 1, 1);
    NotZeroInverse(p, 2 * G, next);
  }

  lemma CongruentOnce(p: nat)
    requires p > 0
    ensures Congruent(p, p + 1, 1)
  {
    DividesByQuotient(p, p, 1);
  }

  lemma NotZeroInverse(p: nat, G: nat, x: nat)
    requires p >= 2 && Congruent(p, G * x, 1)
    ensures x != 0
  {
    ResidueIsUnique(p, -1, -1, p - 1);
    assert x == 0 ==> G * x == 0;
  }

  /** A prime in the fixed factor divides no number of any chain. */
  lemma FixedFactorNeverHits(p: nat, F: nat, sign: Sign, k: nat, i: nat)
    requires p >= 2 && Divides(p, F)
    ensures !Hits(p, F, sign, k, i)
  {
    var e := if sign == Minus then -1 else 1;
    var x := Pow2(k) * (2 * i + 1);
    assert F * Pow2(k) * (2 * i + 1) == F * x;
    FactorNeverHits(p, F, x, e);
  }

  lemma FactorNeverHits(p: nat, F: nat, x: int, e: int)
    requires p >= 2 && Divides(p, F) && (e == 1 || e == -1)
    ensures !Divides(p, F * x + e)
  {
    ResidueIsUnique(p, -1, -1, p - 1);
    ResidueIsUnique(p, 1, 0, 1);
    var minus: int := -x;
    assert 1 * (F * x + e) + minus * F == e;
    if Divides(p, F * x + e) {
      DividesLinear(p, F * x + e, F, 1, minus);
    }
  }
}
