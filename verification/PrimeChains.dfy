/** Cunningham and bi-twin chains (prime.cpp): the validator's walk with Fermat tests only or
    with the Euler-Lagrange-Lifchitz test, and the miner's faster walk. The walks have no
    bound of their own, so each is given a number of steps to finish in. */
module PrimeChains {
  import opened Arithmetic
  import opened Target
  import opened PrimalityTests

  /** Member k of the chain that starts at n. */
  function Member(n: nat, fSophieGermain: bool, k: nat): (m: int)
    ensures n >= 1 ==> m >= 1
    ensures n >= 3 ==> m >= 3
  {
    if k == 0 then n else 2 * Member(n, fSophieGermain, k - 1) + if fSophieGermain then 1 else -1
  }

  /** The test that member k has to pass. */
  predicate MemberPasses(n: nat, fSophieGermain: bool, fFermatTest: bool, k: nat)
    requires n >= 1
  {
    var m: nat := Member(n, fSophieGermain, k);
    if k == 0 || fFermatTest then FermatPasses(m) else LifchitzPasses(m)
  }

  /** The first `count` members pass. */
  ghost predicate Passes(n: nat, fSophieGermain: bool, fFermatTest: bool, count: nat)
    requires n >= 1
  {
    forall k | 0 <= k < count :: MemberPasses(n, fSophieGermain, fFermatTest, k)
  }

  /** The fraction that a failed member leaves; a power of two leaves none. */
  ghost function FailedFraction(m: nat): (f: nat)
    requires m >= 1
    ensures f < FRACTIONAL_ONE
  {
    ZeroRemainderIff(m);
    FractionFits(m, FermatRemainder(m));
    if IsPowerOfTwo(m) then 0 else FractionalLength(m, FermatRemainder(m))
  }

  /** A chain length: how many members pass before the first that fails, and how far that one failed. */
  ghost predicate IsChainLength(n: nat, fSophieGermain: bool, fFermatTest: bool, nLength: nat)
    requires n >= 1
  {
    var count := TargetGetLength(nLength);
    && Passes(n, fSophieGermain, fFermatTest, count) && !MemberPasses(n, fSophieGermain, fFermatTest, count)
    && TargetGetFractional(nLength) == FailedFraction(Member(n, fSophieGermain, count))
  }

  /** After a passed start every member is odd, and no residue mod 8 is out of place. */
  lemma {:induction false} MembersFit(n: nat, fSophieGermain: bool, k: nat)
    requires n >= 3 && n % 2 == 1
    ensures Member(n, fSophieGermain, k) % 2 == 1
    ensures k > 0 ==> ChainMod8(Member(n, fSophieGermain, k), fSophieGermain)
  {
    if k > 0 {
      MembersFit(n, fSophieGermain, k - 1);
      NextMod8(Member(n, fSophieGermain, k - 1));
    }
  }

  lemma NextMod8(m: int)
    requires m % 2 == 1
    ensures (2 * m + 1) % 8 == 3 || (2 * m + 1) % 8 == 7
    ensures (2 * m - 1) % 8 == 1 || (2 * m - 1) % 8 == 5
  {
    var q, r := m / 4, m % 4;
    assert r == 1 || r == 3;
    ResidueIsUnique(8, 2 * m + 1, q, 2 * r + 1);
    ResidueIsUnique(8, 2 * m - 1, q, 2 * r - 1);
  }

  lemma LengthOf(count: nat, f: nat)
    requires f < FRACTIONAL_ONE
    ensures TargetGetLength(count * FRACTIONAL_ONE + f) == count && TargetGetFractional(count * FRACTIONAL_ONE + f) == f
    ensures SetFraction(count * FRACTIONAL_ONE, f) == count * FRACTIONAL_ONE + f
  {
  }

  /** The walk has got past k members. */
  ghost predicate Walked(n: nat, fSophieGermain: bool, fFermatTest: bool, k: nat, m: int) {
    && n >= 3 && n % 2 == 1 && m == Member(n, fSophieGermain, k) && m >= 3 && m % 2 == 1
    && Passes(n, fSophieGermain, fFermatTest, k)
  }

  lemma WalkStarts(n: nat, fSophieGermain: bool, fFermatTest: bool)
    requires n >= 1 && FermatPasses(n)
    ensures Walked(n, fSophieGermain, fFermatTest, 1, 2 * n + if fSophieGermain then 1 else -1)
    ensures 2 * n - 1 >= 3 && ChainMod8(2 * n + if fSophieGermain then 1 else -1, fSophieGermain)
  {
    PassedIsOdd(n);
    MembersFit(n, fSophieGermain, 1);
  }

  lemma WalkGoesOn(n: nat, fSophieGermain: bool, fFermatTest: bool, k: nat, m: int)
    requires Walked(n, fSophieGermain, fFermatTest, k, m) && MemberPasses(n, fSophieGermain, fFermatTest, k)
    ensures Walked(n, fSophieGermain, fFermatTest, k + 1, 2 * m + if fSophieGermain then 1 else -1)
    ensures 2 * m - 1 >= 3 && ChainMod8(2 * m + if fSophieGermain then 1 else -1, fSophieGermain)
  {
    hide FermatPasses, LifchitzPasses, ChainMod8;
    MembersFit(n, fSophieGermain, k + 1);
    assert Member(n, fSophieGermain, k + 1) == 2 * m + if fSophieGermain then 1 else -1;
  }

  lemma WalkEnds(n: nat, fSophieGermain: bool, fFermatTest: bool, k: nat, m: int)
    requires Walked(n, fSophieGermain, fFermatTest, k, m) && !MemberPasses(n, fSophieGermain, fFermatTest, k)
    ensures IsChainLength(n, fSophieGermain, fFermatTest, k * FRACTIONAL_ONE + FractionalLength(m, FermatRemainder(m)))
  {
    OddIsNoPowerOfTwo(m);
    LengthOf(k, FailedFraction(m));
    hide FermatRemainder, FractionalLength, MemberPasses, Passes;
  }

  /** The numbers of a chain lie next to the doublings of its origin. */
  lemma {:induction false} MemberIs(n: nat, fSophieGermain: bool, k: nat)
    ensures Member(n, fSophieGermain, k) == if fSophieGermain then (n + 1) * Pow2(k) - 1 else (n - 1) * Pow2(k) + 1
  {
    if k > 0 {
      MemberIs(n, fSophieGermain, k - 1);
      TwiceInside(n + 1, Pow2(k - 1));
      TwiceInside(n - 1, Pow2(k - 1));
    }
  }

  lemma TwiceInside(a: int, b: int)
    ensures a * (2 * b) == 2 * (a * b)
  {
  }

  /** A chain of that many odd primes. */
  ghost predicate IsPrimeChain(n: nat, fSophieGermain: bool, count: nat) {
    n % 2 == 1 && forall k | 0 <= k < count :: IsPrime(Member(n, fSophieGermain, k))
  }

  lemma PrimeMemberPasses(n: nat, fSophieGermain: bool, fFermatTest: bool, count: nat, k: nat)
    requires n >= 1 && IsPrimeChain(n, fSophieGermain, count) && k < count
    ensures MemberPasses(n, fSophieGermain, fFermatTest, k)
  {
    hide IsPrime, FermatPasses, LifchitzPasses;
    assert IsPrime(Member(n, fSophieGermain, 0)) && n >= 2 by { PrimeIsTwo(n); }
    MembersFit(n, fSophieGermain, k);
    PrimePasses(Member(n, fSophieGermain, k));
  }

  lemma PrimeIsTwo(n: nat)
    ensures IsPrime(n) ==> n >= 2
  {
  }

  /** A chain of primes is counted in full, by either of the validator's tests. */
  lemma PrimesAreCounted(n: nat, fSophieGermain: bool, fFermatTest: bool, count: nat, nLength: nat)
    requires n >= 1 && IsPrimeChain(n, fSophieGermain, count) && IsChainLength(n, fSophieGermain, fFermatTest, nLength)
    ensures TargetGetLength(nLength) >= count
  {
    hide MemberPasses, IsPrimeChain;
    if TargetGetLength(nLength) < count {
      PrimeMemberPasses(n, fSophieGermain, fFermatTest, count, TargetGetLength(nLength));
    }
  }

  ghost predicate CountsPrimes(n: nat, fSophieGermain: bool, nLength: nat) {
    forall count: nat | IsPrimeChain(n, fSophieGermain, count) :: count <= TargetGetLength(nLength)
  }

  lemma LengthCountsPrimes(n: nat, fSophieGermain: bool, fFermatTest: bool, nLength: nat)
    requires n >= 1 && IsChainLength(n, fSophieGermain, fFermatTest, nLength)
    ensures CountsPrimes(n, fSophieGermain, nLength)
  {
    hide IsChainLength, IsPrimeChain;
    forall count: nat | IsPrimeChain(n, fSophieGermain, count) ensures count <= TargetGetLength(nLength) {
      PrimesAreCounted(n, fSophieGermain, fFermatTest, count, nLength);
    }
  }

  /** ProbableCunninghamChainTest. */
  method ProbableCunninghamChainTest(n: nat, fSophieGermain: bool, fFermatTest: bool, nSteps: nat)
    returns (finished: bool, ok: bool, nProbableChainLength: nat)
    requires n >= 1 && nSteps < 0x100
    ensures finished ==> IsChainLength(n, fSophieGermain, fFermatTest, nProbableChainLength)
    ensures finished ==> TargetGetLength(nProbableChainLength) <= nSteps
    ensures finished ==> CountsPrimes(n, fSophieGermain, nProbableChainLength)
    ensures finished ==> (ok <==> Passes(n, fSophieGermain, fFermatTest, 2))
    ensures !finished ==> Passes(n, fSophieGermain, fFermatTest, nSteps)
  {
    hide FermatPasses, LifchitzPasses, FermatRemainder, FractionalLength, IsPowerOfTwo, Walked, ChainMod8, CountsPrimes;
    nProbableChainLength := 0;
    var N: int := n;
    var error;
    ok, nProbableChainLength, error := FermatTest(N, nProbableChainLength);
    if !ok {
      FirstFails(n, fSophieGermain, fFermatTest, nProbableChainLength);
      LengthCountsPrimes(n, fSophieGermain, fFermatTest, nProbableChainLength);
      return true, false, nProbableChainLength;
    }
    var k := 1;
    nProbableChainLength := nProbableChainLength + FRACTIONAL_ONE;
    WalkStarts(N, fSophieGermain, fFermatTest);
    N := 2 * N + if fSophieGermain then 1 else -1;
    finished := false;
    while k < nSteps && !finished
      invariant N >= 3 && Walked(n, fSophieGermain, fFermatTest, k, N) && ChainMod8(N, fSophieGermain) && k >= 1
      invariant if finished then IsChainLength(n, fSophieGermain, fFermatTest, nProbableChainLength) && TargetGetLength(nProbableChainLength) == k < nSteps
                else nProbableChainLength == k * FRACTIONAL_ONE
      decreases nSteps - k, !finished
    {
      ok, nProbableChainLength := TestMember(n, fSophieGermain, fFermatTest, k, N, nProbableChainLength);
      if !ok {
        finished := true;
      } else {
        WalkGoesOn(n, fSophieGermain, fFermatTest, k, N);
        nProbableChainLength := nProbableChainLength + FRACTIONAL_ONE;
        N := 2 * N + if fSophieGermain then 1 else -1;
        k := k + 1;
      }
    }
    ok := TargetGetLength(nProbableChainLength) >= 2;
    WalkedMany(n, fSophieGermain, fFermatTest, k, N, nSteps);
    if finished { LengthCountsPrimes(n, fSophieGermain, fFermatTest, nProbableChainLength); }
  }

  lemma WalkedMany(n: nat, fSophieGermain: bool, fFermatTest: bool, k: nat, m: int, nSteps: nat)
    requires Walked(n, fSophieGermain, fFermatTest, k, m) && k >= 1
    ensures k >= nSteps ==> Passes(n, fSophieGermain, fFermatTest, nSteps)
    ensures !MemberPasses(n, fSophieGermain, fFermatTest, k) ==> (k >= 2 <==> Passes(n, fSophieGermain, fFermatTest, 2))
  {
    hide MemberPasses;
  }

  lemma FirstFails(n: nat, fSophieGermain: bool, fFermatTest: bool, nLength: nat)
    requires n >= 1 && !FermatPasses(n)
    requires nLength == if IsPowerOfTwo(n) then 0 else SetFraction(0, FractionalLength(n, FermatRemainder(n)))
    ensures IsChainLength(n, fSophieGermain, fFermatTest, nLength) && TargetGetLength(nLength) == 0 && !Passes(n, fSophieGermain, fFermatTest, 2)
  {
    LengthOf(0, FailedFraction(n));
    assert !MemberPasses(n, fSophieGermain, fFermatTest, 0);
  }

  /** One member after the first: no error can occur. */
  method TestMember(n: nat, fSophieGermain: bool, fFermatTest: bool, ghost k: nat, N: nat, nLength: nat) returns (ok: bool, nLengthNew: nat)
    requires Walked(n, fSophieGermain, fFermatTest, k, N) && ChainMod8(N, fSophieGermain) && k >= 1 && nLength == k * FRACTIONAL_ONE
    ensures ok <==> MemberPasses(n, fSophieGermain, fFermatTest, k)
    ensures ok ==> nLengthNew == nLength
    ensures !ok ==> IsChainLength(n, fSophieGermain, fFermatTest, nLengthNew) && TargetGetLength(nLengthNew) == k
  {
    hide FermatPasses, LifchitzPasses, FermatRemainder, FractionalLength, ChainMod8, Passes, IsPowerOfTwo, Member;
    OddIsNoPowerOfTwo(N);
    OddFractionFits(N);
    var error;
    if fFermatTest {
      ok, nLengthNew, error := FermatTest(N, nLength);
    } else {
      ok, nLengthNew, error := LifchitzTest(N, fSophieGermain, nLength);
    }
    assert error == None;
    if !ok {
      WalkEnds(n, fSophieGermain, fFermatTest, k, N);
      LengthOf(k, FractionalLength(N, FermatRemainder(N)));
    }
  }

  // ---------- Fermat against Euler-Lagrange-Lifchitz ----------

  /** Whoever passes the stronger tests passes Fermat's. */
  lemma LifchitzChainIsFermatChain(n: nat, fSophieGermain: bool, count: nat)
    requires n >= 1 && Passes(n, fSophieGermain, false, count)
    ensures Passes(n, fSophieGermain, true, count)
  {
    hide FermatPasses, LifchitzPasses;
    forall k | 0 <= k < count ensures MemberPasses(n, fSophieGermain, true, k) {
      assert MemberPasses(n, fSophieGermain, false, k) && MemberPasses(n, fSophieGermain, false, 0);
      PassedIsOdd(n);
      MembersFit(n, fSophieGermain, k);
      if k > 0 { LifchitzImpliesFermat(Member(n, fSophieGermain, k)); }
    }
  }

  lemma CompareLengths(a: nat, b: nat)
    ensures TargetGetLength(a) < TargetGetLength(b) ==> a < b
    ensures TargetGetLength(a) == TargetGetLength(b) && TargetGetFractional(a) == TargetGetFractional(b) ==> a == b
  {
  }

  /** The double check with Fermat tests finds the same length or a longer one: the same
      exactly when the member that ended the chain fails Fermat's test too. */
  lemma FermatChainAtLeast(n: nat, fSophieGermain: bool, nLength: nat, nLengthFermat: nat)
    requires n >= 1 && IsChainLength(n, fSophieGermain, false, nLength) && IsChainLength(n, fSophieGermain, true, nLengthFermat)
    ensures nLength <= nLengthFermat
    ensures nLength == nLengthFermat <==> !MemberPasses(n, fSophieGermain, true, TargetGetLength(nLength))
  {
    var a, b := TargetGetLength(nLength), TargetGetLength(nLengthFermat);
    LifchitzChainIsFermatChain(n, fSophieGermain, a);
    hide MemberPasses, TargetGetLength, TargetGetFractional, FailedFraction;
    CompareLengths(nLength, nLengthFermat);
    assert a <= b;
  }
}
