/** The probable primality tests of the proof of work (prime.cpp), in the form the validator
    uses and in the faster form the miner uses. Modular powers are the big number library's. */
module PrimalityTests {
  import opened Arithmetic
  import opened Target
  import TwoModPrime

  function Power(b: nat, e: nat): nat {
    if e == 0 then 1 else b * Power(b, e - 1)
  }

  /** BN_mod_exp and mpz_powm. */
  function PowMod(b: nat, e: nat, n: nat): (r: nat)
    requires n >= 1
    ensures r < n
  {
    Power(b, e) % n
  }

  // ---------- what the tests decide ----------

  function FermatRemainder(n: nat): (r: nat)
    requires n >= 1
    ensures r < n
  {
    Pow2(n - 1) % n
  }

  function EulerRemainder(n: nat): (r: nat)
    requires n >= 1
    ensures r < n
  {
    Pow2((n - 1) / 2) % n
  }

  /** n is a probable prime to base 2. */
  predicate FermatPasses(n: nat)
    requires n >= 1
  {
    FermatRemainder(n) == 1
  }

  predicate EulerPasses(n: nat)
    requires n >= 1
  {
    EulerRemainder(n) == 1 || EulerRemainder(n) == n - 1
  }

  /** The residues mod 8 that members of a chain may have. */
  predicate ChainMod8(n: int, fSophieGermain: bool) {
    if fSophieGermain then n % 8 == 7 || n % 8 == 3 else n % 8 == 5 || n % 8 == 1
  }

  /** Euler and Lagrange, Lifchitz: the square root of 1 that n % 8 calls for. */
  predicate LifchitzPasses(n: nat)
    requires n >= 1
  {
    EulerRemainder(n) == if n % 8 == 7 || n % 8 == 1 then 1 else n - 1
  }

  /** How close a composite came: the remainder r as a 24-bit fraction of n. */
  function FractionalLength(n: nat, r: nat): nat
    requires r < n
  {
    (n - r) * FRACTIONAL_ONE / n
  }

  function SetFraction(nLength: nat, nFractional: nat): nat {
    nLength / FRACTIONAL_ONE * FRACTIONAL_ONE + nFractional
  }

  // ---------- arithmetic ----------

  lemma {:induction false} PowerOfPow2(a: nat, e: nat)
    ensures Power(Pow2(a), e) == Pow2(a * e)
  {
    if e == 0 {
      assert a * e == 0;
    } else {
      PowerOfPow2(a, e - 1);
      assert a * e == a + a * (e - 1);
      Pow2Sum(a, a * (e - 1));
    }
  }

  lemma SquareOfResidue(x: nat, n: nat)
    requires n >= 1
    ensures (x % n) * (x % n) % n == x * x % n
  {
    var q, r := x / n, x % n;
    assert x == n * q + r;
    assert x * x - r * r == n * (q * (x + r)) by {
      assert x * x - r * r == (x - r) * (x + r);
      assert (n * q) * (x + r) == n * (q * (x + r));
    }
    DividesByQuotient(n, x * x - r * r, q * (x + r));
    SameResidue(n, x * x, r * r);
  }

  /** For odd n the Fermat remainder is the square of the Euler remainder. */
  lemma FermatIsEulerSquared(n: nat)
    requires n % 2 == 1
    ensures FermatRemainder(n) == EulerRemainder(n) * EulerRemainder(n) % n
  {
    var h := (n - 1) / 2;
    Pow2Sum(h, h);
    assert h + h == n - 1;
    SquareOfResidue(Pow2(h), n);
  }

  lemma SquareOfMinusOne(n: nat)
    requires n >= 2
    ensures (n - 1) * (n - 1) % n == 1 && 1 * 1 % n == 1
  {
    assert (n - 1) * (n - 1) == n * (n - 2) + 1;
    ResidueIsUnique(n, (n - 1) * (n - 1), n - 2, 1);
    ResidueIsUnique(n, 1, 0, 1);
  }

  /** Passing the stronger test means passing Fermat's. */
  lemma EulerImpliesFermat(n: nat)
    requires n % 2 == 1 && n >= 3 && EulerPasses(n)
    ensures FermatPasses(n)
  {
    FermatIsEulerSquared(n);
    SquareOfMinusOne(n);
  }

  lemma LifchitzImpliesFermat(n: nat)
    requires n % 2 == 1 && n >= 3 && LifchitzPasses(n)
    ensures FermatPasses(n)
  {
    EulerImpliesFermat(n);
  }

  /** Every odd prime passes the Euler-Lagrange-Lifchitz test, for the root that its residue
      calls for. */
  lemma PrimePassesLifchitz(p: nat)
    requires IsPrime(p) && p % 2 == 1
    ensures LifchitzPasses(p)
  {
    var m := (p - 1) / 2;
    TwoModPrime.PowerIsSign(p, m);
    TwoModPrime.SignByMod8(p, m);
    var s := TwoModPrime.Sign((m + 1) / 2);
    hide IsPrime, Pow2, Divides;
    SameResidue(p, Pow2(m), s);
    if s == 1 { ResidueIsUnique(p, 1, 0, 1); } else { ResidueIsUnique(p, -1, -1, p - 1); }
  }

  /** And so Euler's and Fermat's. */
  lemma PrimePasses(p: nat)
    requires IsPrime(p) && p % 2 == 1
    ensures FermatPasses(p) && EulerPasses(p) && LifchitzPasses(p)
  {
    PrimePassesLifchitz(p);
    hide IsPrime, EulerRemainder, FermatRemainder;
    LifchitzImpliesFermat(p);
  }

  lemma OddPrime(p: nat)
    requires IsPrime(p) && p != 2
    ensures p % 2 == 1
  {
    assert !Divides(2, p);
  }

  /** The fraction fits its 24 bits exactly when the remainder is not 0. */
  lemma FractionFits(n: nat, r: nat)
    requires r < n
    ensures FractionalLength(n, r) < FRACTIONAL_ONE <==> r != 0
    ensures FractionalLength(n, r) <= FRACTIONAL_ONE
  {
    var m := (n - r) * FRACTIONAL_ONE;
    var q := m / n;
    assert m == n * q + m % n;
    if q > FRACTIONAL_ONE { MulMono(n, FRACTIONAL_ONE + 1, q); }
    if r == 0 {
      QuotientIsUnique(n, m, FRACTIONAL_ONE);
    } else if q >= FRACTIONAL_ONE {
      MulMono(n, FRACTIONAL_ONE, q);
    }
  }

  ghost predicate IsPowerOfTwo(n: nat) {
    exists k: nat :: n == Pow2(k)
  }

  /** A divisor of a power of two is one. */
  lemma {:induction false} DivisorOfPow2(n: nat, m: nat)
    requires n >= 1 && Divides(n, Pow2(m))
    ensures IsPowerOfTwo(n)
    decreases m
  {
    hide Divides;
    if n == 1 {
      assert n == Pow2(0);
    } else {
      NoUnitDivisor(n, m);
      if n % 2 == 1 {
        OddHalves(n, Pow2(m - 1));
        DivisorOfPow2(n, m - 1);
      } else {
        EvenHalves(n / 2, Pow2(m - 1));
        DivisorOfPow2(n / 2, m - 1);
        var k: nat :| n / 2 == Pow2(k);
        assert n == Pow2(k + 1);
      }
    }
  }

  lemma NoUnitDivisor(n: nat, m: nat)
    requires n >= 2 && Divides(n, Pow2(m))
    ensures m > 0
  {
    if m == 0 { DividesBounded(n, 1); }
  }

  lemma OddHalves(n: nat, x: nat)
    requires n % 2 == 1 && Divides(n, 2 * x)
    ensures Divides(n, x)
  {
    var q := 2 * x / n;
    assert 2 * x == n * q;
    OddTimes(n, q);
    DoubleProduct(q / 2, n);
    DividesByQuotient(n, x, q / 2);
  }

  lemma EvenHalves(h: nat, x: nat)
    requires h >= 1 && Divides(2 * h, 2 * x)
    ensures Divides(h, x)
  {
    var q := 2 * x / (2 * h);
    assert 2 * x == (2 * h) * q;
    DoubleProduct(h, q);
    DividesByQuotient(h, x, q);
  }

  lemma OddTimes(n: nat, q: nat)
    requires n % 2 == 1 && n * q % 2 == 0
    ensures q % 2 == 0
  {
    var a := n / 2;
    assert n * q == 2 * (a * q) + q by {
      assert (2 * a + 1) * q == 2 * (a * q) + q;
    }
  }

  lemma {:induction false} BelowPow2(k: nat)
    ensures k < Pow2(k)
  {
    if k > 0 { BelowPow2(k - 1); }
  }

  /** The remainder vanishes for the powers of two, and for no other number. */
  lemma ZeroRemainderIff(n: nat)
    requires n >= 1
    ensures FermatRemainder(n) == 0 <==> IsPowerOfTwo(n)
  {
    if FermatRemainder(n) == 0 {
      DivisorOfPow2(n, n - 1);
    }
    if IsPowerOfTwo(n) {
      var k: nat :| n == Pow2(k);
      BelowPow2(k);
      Pow2Sum(k, n - 1 - k);
      DividesByQuotient(n, Pow2(n - 1), Pow2(n - 1 - k));
    }
  }

  lemma OddIsNoPowerOfTwo(n: nat)
    requires n % 2 == 1 && n >= 3
    ensures !IsPowerOfTwo(n)
  {
    forall k: nat ensures n != Pow2(k) {
      assert k > 0 ==> Pow2(k) == 2 * Pow2(k - 1);
    }
  }

  /** Every length has an odd origin, 2^k + 1, whose chain of the first kind starts at a power
      of two: there the fractional length comes out as a whole one, which the assertion forbids.
      With k == 255 it is one the proof of work admits. */
  lemma OddOriginReachesAssertion(k: nat) returns (origin: nat)
    requires k >= 2
    ensures origin % 2 == 1 && Pow2(k) <= origin < Pow2(k + 1)
    ensures IsPowerOfTwo(origin - 1) && !FermatPasses(origin - 1)
    ensures FractionalLength(origin - 1, FermatRemainder(origin - 1)) == FRACTIONAL_ONE
  {
    origin := Pow2(k) + 1;
    BelowPow2(k);
    assert Pow2(k) == 2 * Pow2(k - 1);
    hide Pow2, FermatRemainder, FractionalLength;
    ZeroRemainderIff(origin - 1);
    FractionFits(origin - 1, 0);
  }

  /** A number that passes is odd: an even modulus leaves an even remainder. */
  lemma PassedIsOdd(n: nat)
    requires n >= 1 && FermatPasses(n)
    ensures n % 2 == 1 && n >= 3
  {
    var q := Pow2(n - 1) / n;
    assert Pow2(n - 1) == n * q + 1;
    assert n != 1;
    assert Pow2(n - 1) == 2 * Pow2(n - 2);
    DoubleProduct(n / 2, q);
  }

  // ---------- the validator's tests ----------

  datatype TestError = None | FractionalAssert | InvalidMod8

  /** FermatProbablePrimalityTest. */
  method FermatTest(n: nat, nLength: nat) returns (ok: bool, nLengthNew: nat, error: TestError)
    requires n >= 1
    ensures ok <==> FermatPasses(n)
    ensures IsPrime(n) && n != 2 ==> ok
    ensures error == if !IsPowerOfTwo(n) then None else FractionalAssert
    ensures nLengthNew == if ok || error != None then nLength else SetFraction(nLength, FractionalLength(n, FermatRemainder(n)))
    ensures !ok && error == None ==> FractionalLength(n, FermatRemainder(n)) < FRACTIONAL_ONE
  {
    ok, nLengthNew, error := false, nLength, None;
    if IsPrime(n) && n != 2 {
      OddPrime(n);
      PrimePasses(n);
    }
    hide IsPrime;
    PowerOfPow2(1, n - 1);
    var r := PowMod(2, n - 1, n);
    ZeroRemainderIff(n);
    if r == 1 {
      ok := true;
    } else {
      FractionFits(n, r);
      var nFractionalLength := (n - r) * FRACTIONAL_ONE / n;
      if nFractionalLength >= FRACTIONAL_ONE {
        error := FractionalAssert;
      } else {
        nLengthNew := nLength / FRACTIONAL_ONE * FRACTIONAL_ONE + nFractionalLength;
      }
    }
  }

  /** EulerLagrangeLifchitzPrimalityTest. */
  method LifchitzTest(n: nat, fSophieGermain: bool, nLength: nat) returns (ok: bool, nLengthNew: nat, error: TestError)
    requires n >= 3 && n % 2 == 1
    ensures error == if ChainMod8(n, fSophieGermain) then None else InvalidMod8
    ensures ok <==> ChainMod8(n, fSophieGermain) && LifchitzPasses(n)
    ensures IsPrime(n) && ChainMod8(n, fSophieGermain) ==> ok
    ensures nLengthNew == if ok || error != None then nLength else SetFraction(nLength, FractionalLength(n, FermatRemainder(n)))
    ensures FractionalLength(n, FermatRemainder(n)) < FRACTIONAL_ONE
  {
    if IsPrime(n) { PrimePasses(n); }
    hide IsPrime;
    ok, nLengthNew, error := false, nLength, None;
    PowerOfPow2(1, (n - 1) / 2);
    OddFractionFits(n);
    hide FermatRemainder, FractionalLength, Power, IsPowerOfTwo;
    var r := PowMod(2, (n - 1) / 2, n);
    assert r == EulerRemainder(n);
    var nMod8 := n % 8;
    if fSophieGermain && nMod8 == 7 {
      ok := r == 1;
    } else if fSophieGermain && nMod8 == 3 {
      ok := r + 1 == n;
    } else if !fSophieGermain && nMod8 == 5 {
      ok := r + 1 == n;
    } else if !fSophieGermain && nMod8 == 1 {
      ok := r == 1;
    } else {
      error := InvalidMod8;
    }
    if error == None && !ok {
      nLengthNew, error := FinishFraction(n, r, nLength);
    }
  }

  lemma OddFractionFits(n: nat)
    requires n >= 3 && n % 2 == 1
    ensures FractionalLength(n, FermatRemainder(n)) < FRACTIONAL_ONE
  {
    OddIsNoPowerOfTwo(n);
    ZeroRemainderIff(n);
    FractionFits(n, FermatRemainder(n));
  }

  /** The tail that the tests share: from the Euler remainder to the fractional length. */
  method FinishFraction(n: nat, r: nat, nLength: nat) returns (nLengthNew: nat, error: TestError)
    requires n >= 3 && n % 2 == 1 && r == EulerRemainder(n)
    ensures error == None && nLengthNew == SetFraction(nLength, FractionalLength(n, FermatRemainder(n)))
  {
    FermatIsEulerSquared(n);
    OddFractionFits(n);
    hide FermatRemainder, EulerRemainder, IsPowerOfTwo;
    var rSquared := r * r % n;
    var nFractionalLength := (n - rSquared) * FRACTIONAL_ONE / n;
    nLengthNew, error := nLength, None;
    if nFractionalLength >= FRACTIONAL_ONE {
      error := FractionalAssert;
    } else {
      nLengthNew := nLength / FRACTIONAL_ONE * FRACTIONAL_ONE + nFractionalLength;
    }
  }

  // ---------- the miner's tests ----------

  /** mpz_scan1: how many zero bits come first. */
  function TrailingZeros(m: nat): (z: nat)
    requires m > 0
    ensures Divides(Pow2(z), m)
  {
    if m % 2 == 1 then 0
    else
      var z := TrailingZeros(m / 2);
      ShiftDivides(m, z);
      z + 1
  }

  lemma ShiftDivides(m: nat, z: nat)
    requires m % 2 == 0 && Divides(Pow2(z), m / 2)
    ensures Divides(Pow2(z + 1), m)
  {
    var q := m / 2 / Pow2(z);
    assert m / 2 == Pow2(z) * q;
    assert m == Pow2(z + 1) * q by { DoubleProduct(Pow2(z), q); }
    DividesByQuotient(Pow2(z + 1), m, q);
  }

  lemma FewerZerosDivide(m: nat, y: nat, z: nat)
    requires y <= z && Divides(Pow2(z), m)
    ensures Divides(Pow2(y), m)
  {
    Pow2Sum(y, z - y);
    FactorDivides(Pow2(y), Pow2(z - y), m);
  }

  lemma FactorDivides(a: int, b: int, m: int)
    requires Divides(a * b, m) && a != 0
    ensures Divides(a, m)
  {
    var q := m / (a * b);
    assert m == (a * b) * q;
    assert (a * b) * q == a * (b * q);
    DividesByQuotient(a, m, b * q);
  }

  /** mpz_tdiv_q_2exp. */
  function ShiftRight(m: nat, z: nat): nat {
    Quotient(m, Pow2(z))
  }

  function Quotient(m: nat, d: nat): nat
    requires d > 0
  {
    DivideMono(d, 0, m);
    m / d
  }

  lemma ExactShift(m: nat, y: nat)
    requires y >= 1 && Divides(Pow2(y), m)
    ensures m == 2 * (Pow2(y - 1) * ShiftRight(m, y))
  {
    ExactQuotient(m, Pow2(y - 1));
  }

  lemma ExactQuotient(m: nat, p: nat)
    requires p > 0 && Divides(2 * p, m)
    ensures m == 2 * (p * Quotient(m, 2 * p))
  {
    DoubleProduct(p, Quotient(m, 2 * p));
  }

  /** Shifting part of the exponent into the base leaves the power. */
  lemma ShiftedPower(n: nat, y: nat)
    requires n >= 3 && n % 2 == 1 && 1 <= y <= TrailingZeros(n - 1)
    ensures PowMod(Pow2(Pow2(y - 1)), ShiftRight(n - 1, y), n) == EulerRemainder(n)
  {
    FewerZerosDivide(n - 1, y, TrailingZeros(n - 1));
    hide PowMod, EulerRemainder, ShiftRight, Divides, Power;
    ExactShift(n - 1, y);
    var e, p := ShiftRight(n - 1, y), Pow2(y - 1);
    PowerOfPow2(p, e);
    SamePower(n, p, e, p * e);
  }

  lemma SamePower(n: nat, a: nat, e: nat, h: nat)
    requires n == 2 * h + 1 && Power(Pow2(a), e) == Pow2(h)
    ensures PowMod(Pow2(a), e, n) == EulerRemainder(n)
  {
  }

  lemma OddHasZeros(n: nat)
    requires n >= 3 && n % 2 == 1
    ensures TrailingZeros(n - 1) >= 1
  {
  }

  /** The Euler remainder, computed with up to nine squarings moved into the base. */
  method EulerRemainderFast(n: nat) returns (r: nat)
    requires n >= 3 && n % 2 == 1
    ensures r == EulerRemainder(n)
  {
    hide PowMod, EulerRemainder, ShiftRight, TrailingZeros;
    OddHasZeros(n);
    var nMinusOne := n - 1;
    var nTrailingZeros := TrailingZeros(nMinusOne);
    if nTrailingZeros > 9 {
      nTrailingZeros := 9;
    }
    ShiftedPower(n, nTrailingZeros);
    var e := ShiftRight(nMinusOne, nTrailingZeros);
    var nShiftCount := Pow2(nTrailingZeros - 1) - 1;
    var base := 2 * Pow2(nShiftCount);
    assert base == Pow2(nShiftCount + 1);
    r := PowMod(base, e, n);
  }

  /** FermatProbablePrimalityTestFast. */
  method FermatTestFast(n: nat, nLength: nat, fFastFail: bool) returns (ok: bool, nLengthNew: nat, error: TestError)
    requires n >= 3 && n % 2 == 1
    ensures error == None && (ok <==> EulerPasses(n)) && (IsPrime(n) ==> ok)
    ensures nLengthNew == if ok || fFastFail then nLength else SetFraction(nLength, FractionalLength(n, FermatRemainder(n)))
  {
    hide FermatRemainder, EulerRemainder, FractionalLength, IsPrime;
    if IsPrime(n) { PrimePasses(n); }
    ok, nLengthNew, error := false, nLength, None;
    var r := EulerRemainderFast(n);
    if r == 1 || r == n - 1 {
      ok := true;
    } else if !fFastFail {
      nLengthNew, error := FinishFraction(n, r, nLength);
    }
  }

  /** EulerLagrangeLifchitzPrimalityTestFast. The low 64 bits settle n % 8. */
  method LifchitzTestFast(n: nat, fSophieGermain: bool, nLength: nat, fFastFail: bool)
    returns (ok: bool, nLengthNew: nat, error: TestError)
    requires n >= 3 && n % 2 == 1
    ensures error == if ChainMod8(n, fSophieGermain) then None else InvalidMod8
    ensures ok <==> ChainMod8(n, fSophieGermain) && LifchitzPasses(n)
    ensures IsPrime(n) && ChainMod8(n, fSophieGermain) ==> ok
    ensures nLengthNew == if ok || error != None || fFastFail then nLength else SetFraction(nLength, FractionalLength(n, FermatRemainder(n)))
  {
    hide FermatRemainder, EulerRemainder, FractionalLength, IsPrime;
    if IsPrime(n) { PrimePasses(n); }
    ok, nLengthNew, error := false, nLength, None;
    var r := EulerRemainderFast(n);
    var nMod8 := n % 0x1_0000_0000_0000_0000 % 8;
    if fSophieGermain && nMod8 == 7 {
      ok := r == 1;
    } else if fSophieGermain && nMod8 == 3 {
      ok := r == n - 1;
    } else if !fSophieGermain && nMod8 == 5 {
      ok := r == n - 1;
    } else if !fSophieGermain && nMod8 == 1 {
      ok := r == 1;
    } else {
      error := InvalidMod8;
    }
    if error == None && !ok && !fFastFail {
      nLengthNew, error := FinishFraction(n, r, nLength);
    }
  }
}
