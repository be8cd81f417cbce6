/** The miner's chain tests against the validator's (prime.cpp): a chain that the miner takes
    for long enough is one that the validator accepts. */
module MinerChains {
  import opened Arithmetic
  import opened Target
  import opened PrimalityTests
  import opened PrimeChains

  datatype ChainType = Cunningham1 | Cunningham2 | BiTwin

  // ---------- one chain ----------

  /** The miner's length: nothing when the start fails Euler's test; else the validator's
      count, with a fraction only from the fifth member on. */
  ghost predicate IsFastLength(n: nat, fSophieGermain: bool, nLength: nat)
    requires n >= 1
  {
    var count := TargetGetLength(nLength);
    if !EulerPasses(n) then nLength == 0
    else && Passes(n, fSophieGermain, false, count) && !MemberPasses(n, fSophieGermain, false, count)
         && TargetGetFractional(nLength) == if count < 4 then 0 else FailedFraction(Member(n, fSophieGermain, count))
  }

  /** The miner counts a chain of primes in full, too. */
  lemma FastLengthCountsPrimes(n: nat, fSophieGermain: bool, nLength: nat)
    requires n >= 3 && IsFastLength(n, fSophieGermain, nLength)
    ensures CountsPrimes(n, fSophieGermain, nLength)
  {
    hide EulerPasses, MemberPasses, FailedFraction, IsPrimeChain;
    forall count: nat | IsPrimeChain(n, fSophieGermain, count) ensures count <= TargetGetLength(nLength) {
      if TargetGetLength(nLength) < count {
        PrimeStart(n, fSophieGermain, count);
        PrimeMemberPasses(n, fSophieGermain, false, count, TargetGetLength(nLength));
      }
    }
  }

  lemma PrimeStart(n: nat, fSophieGermain: bool, count: nat)
    requires IsPrimeChain(n, fSophieGermain, count) && count > 0
    ensures EulerPasses(n)
  {
    assert IsPrime(Member(n, fSophieGermain, 0));
    hide IsPrime;
    PrimePasses(n);
  }

  /** ProbableCunninghamChainTestFast. */
  method ProbableCunninghamChainTestFast(n: nat, fSophieGermain: bool, nSteps: nat) returns (finished: bool, nProbableChainLength: nat)
    requires n >= 3 && n % 2 == 1 && nSteps < 0x100
    ensures finished ==> IsFastLength(n, fSophieGermain, nProbableChainLength) && CountsPrimes(n, fSophieGermain, nProbableChainLength)
    ensures !finished ==> Passes(n, fSophieGermain, false, nSteps)
  {
    hide EulerPasses, FermatPasses, LifchitzPasses, FermatRemainder, FractionalLength, IsPowerOfTwo, Walked, ChainMod8, CountsPrimes;
    nProbableChainLength := 0;
    var ok, error;
    ok, nProbableChainLength, error := FermatTestFast(n, nProbableChainLength, true);
    if !ok {
      FastLengthCountsPrimes(n, fSophieGermain, nProbableChainLength);
      return true, nProbableChainLength;
    }
    EulerImpliesFermat(n);
    WalkStarts(n, fSophieGermain, false);
    var N: int := 2 * n + if fSophieGermain then 1 else -1;
    var nChainSeq := 1;
    nProbableChainLength := nProbableChainLength + FRACTIONAL_ONE;
    finished := false;
    while nChainSeq < nSteps && !finished
      invariant N >= 3 && Walked(n, fSophieGermain, false, nChainSeq, N) && ChainMod8(N, fSophieGermain) && nChainSeq >= 1
      invariant if finished then FailedAt(n, fSophieGermain, nChainSeq, nProbableChainLength, nChainSeq < 4)
                else nProbableChainLength == nChainSeq * FRACTIONAL_ONE
      decreases nSteps - nChainSeq, !finished
    {
      ok, nProbableChainLength := TestMemberFast(n, fSophieGermain, nChainSeq, N, nProbableChainLength, nChainSeq < 4);
      if !ok {
        finished := true;
      } else {
        WalkGoesOn(n, fSophieGermain, false, nChainSeq, N);
        nProbableChainLength := nProbableChainLength + FRACTIONAL_ONE;
        N := 2 * N + if fSophieGermain then 1 else -1;
        nChainSeq := nChainSeq + 1;
      }
    }
    WalkedMany(n, fSophieGermain, false, nChainSeq, N, nSteps);
    if finished {
      FastEnds(n, fSophieGermain, nChainSeq, N, nProbableChainLength);
      FastLengthCountsPrimes(n, fSophieGermain, nProbableChainLength);
    }
  }

  /** Member k failed, and left its fraction unless in a hurry. */
  ghost predicate FailedAt(n: nat, fSophieGermain: bool, k: nat, nLength: nat, fFastFail: bool)
    requires n >= 1
  {
    && !MemberPasses(n, fSophieGermain, false, k)
    && nLength == k * FRACTIONAL_ONE + if fFastFail then 0 else FailedFraction(Member(n, fSophieGermain, k))
  }

  lemma FastEnds(n: nat, fSophieGermain: bool, k: nat, m: int, nLength: nat)
    requires Walked(n, fSophieGermain, false, k, m) && FailedAt(n, fSophieGermain, k, nLength, k < 4) && EulerPasses(n)
    ensures IsFastLength(n, fSophieGermain, nLength)
  {
    hide EulerPasses, MemberPasses;
    LengthOf(k, if k < 4 then 0 else FailedFraction(Member(n, fSophieGermain, k)));
  }

  /** One member after the first: no error can occur, and the verdict is the validator's. */
  method TestMemberFast(n: nat, fSophieGermain: bool, ghost k: nat, N: nat, nLength: nat, fFastFail: bool) returns (ok: bool, nLengthNew: nat)
    requires Walked(n, fSophieGermain, false, k, N) && ChainMod8(N, fSophieGermain) && k >= 1
    ensures ok <==> MemberPasses(n, fSophieGermain, false, k)
    ensures ok ==> nLengthNew == nLength
    ensures !ok ==> nLengthNew == if fFastFail then nLength else SetFraction(nLength, FailedFraction(Member(n, fSophieGermain, k)))
    ensures !ok && nLength == k * FRACTIONAL_ONE ==> FailedAt(n, fSophieGermain, k, nLengthNew, fFastFail)
  {
    hide LifchitzPasses, FermatRemainder, FractionalLength, ChainMod8, Passes, IsPowerOfTwo, Member;
    OddIsNoPowerOfTwo(N);
    var error;
    ok, nLengthNew, error := LifchitzTestFast(N, fSophieGermain, nLength, fFastFail);
    assert error == None;
  }

  /** The miner never claims more than the validator finds, and claims as much once the chain
      has four members and starts with an Euler pseudoprime. */
  lemma FastNeverOverclaims(n: nat, fSophieGermain: bool, nFast: nat, nLength: nat)
    requires n >= 3 && n % 2 == 1 && IsFastLength(n, fSophieGermain, nFast) && IsChainLength(n, fSophieGermain, false, nLength)
    ensures nFast <= nLength
    ensures EulerPasses(n) ==> TargetGetLength(nFast) == TargetGetLength(nLength)
    ensures EulerPasses(n) && TargetGetLength(nFast) >= 4 ==> nFast == nLength
  {
    hide EulerPasses, MemberPasses, FailedFraction;
    if EulerPasses(n) {
      assert TargetGetLength(nFast) == TargetGetLength(nLength);
      SameLength(nFast, nLength);
    }
  }

  lemma SameLength(a: nat, b: nat)
    requires TargetGetLength(a) == TargetGetLength(b)
    ensures TargetGetFractional(a) <= TargetGetFractional(b) ==> a <= b
    ensures TargetGetFractional(a) == TargetGetFractional(b) ==> a == b
  {
  }

  // ---------- bi-twin chains ----------

  /** The members in the order in which the miner tests them: o - 1, o + 1, then the next of each chain. */
  predicate TwinPasses(o: nat, i: nat)
    requires o >= 2
  {
    if i % 2 == 0 then MemberPasses(o - 1, true, false, i / 2) else MemberPasses(o + 1, false, false, i / 2)
  }

  ghost function TwinFraction(o: nat, i: nat): (f: nat)
    requires o >= 2
    ensures f < FRACTIONAL_ONE
  {
    if i % 2 == 0 then FailedFraction(Member(o - 1, true, i / 2)) else FailedFraction(Member(o + 1, false, i / 2))
  }

  ghost predicate TwinsPass(o: nat, count: nat)
    requires o >= 2
  {
    forall i | 0 <= i < count :: TwinPasses(o, i)
  }

  ghost predicate IsFastTwinLength(o: nat, nLength: nat)
    requires o >= 2
  {
    var count := TargetGetLength(nLength);
    if !EulerPasses(o - 1) then nLength == 0
    else if !EulerPasses(o + 1) then nLength == FRACTIONAL_ONE
    else && count >= 2 && TwinsPass(o, count) && !TwinPasses(o, count)
         && TargetGetFractional(nLength) == if count < 4 then 0 else TwinFraction(o, count)
  }

  /** Both chains are walked, the first one k0 members far and the second k1. */
  ghost predicate BothWalked(o: nat, k0: nat, k1: nat, m0: int, m1: int) {
    o >= 4 && o % 2 == 0 && Walked(o - 1, true, false, k0, m0) && Walked(o + 1, false, false, k1, m1)
  }

  lemma BothStart(o: nat)
    requires o >= 4 && o % 2 == 0 && EulerPasses(o - 1) && EulerPasses(o + 1)
    ensures BothWalked(o, 0, 0, o - 1, o + 1)
    ensures MemberPasses(o - 1, true, false, 0) && MemberPasses(o + 1, false, false, 0)
  {
    EulerImpliesFermat(o - 1);
    EulerImpliesFermat(o + 1);
  }

  /** Walking both chains alternately: member 2k is the first chain's, 2k + 1 the second's. */
  lemma TwinsWalked(o: nat, k0: nat, k1: nat, m0: int, m1: int)
    requires BothWalked(o, k0, k1, m0, m1) && k1 <= k0 <= k1 + 1
    ensures TwinsPass(o, k0 + k1)
  {
    hide MemberPasses;
    forall i | 0 <= i < k0 + k1 ensures TwinPasses(o, i) {
      TwinHalf(i, k0, k1);
      assert i % 2 == 0 ==> MemberPasses(o - 1, true, false, i / 2);
      assert i % 2 == 1 ==> MemberPasses(o + 1, false, false, i / 2);
    }
  }

  lemma TwinHalf(i: nat, k0: nat, k1: nat)
    requires i < k0 + k1 && k1 <= k0 <= k1 + 1
    ensures if i % 2 == 0 then i / 2 < k0 else i / 2 < k1
  {
  }

  lemma TwinEnds(o: nat, k0: nat, k1: nat, m0: int, m1: int, nLength: nat)
    requires BothWalked(o, k0, k1, m0, m1) && k1 <= k0 <= k1 + 1 && k0 + k1 >= 2 && EulerPasses(o - 1) && EulerPasses(o + 1)
    requires !TwinPasses(o, k0 + k1) && nLength == (k0 + k1) * FRACTIONAL_ONE + if k0 + k1 < 4 then 0 else TwinFraction(o, k0 + k1)
    ensures IsFastTwinLength(o, nLength)
  {
    hide EulerPasses, TwinPasses, TwinFraction;
    TwinsWalked(o, k0, k1, m0, m1);
    LengthOf(k0 + k1, if k0 + k1 < 4 then 0 else TwinFraction(o, k0 + k1));
  }

  lemma TwinAt(o: nat, k: nat)
    requires o >= 2
    ensures TwinPasses(o, k + k) == MemberPasses(o - 1, true, false, k) && TwinFraction(o, k + k) == FailedFraction(Member(o - 1, true, k))
    ensures TwinPasses(o, k + 1 + k) == MemberPasses(o + 1, false, false, k) && TwinFraction(o, k + 1 + k) == FailedFraction(Member(o + 1, false, k))
  {
    hide MemberPasses, FailedFraction;
    assert (k + k) / 2 == k && (k + k) % 2 == 0 && (k + 1 + k) / 2 == k && (k + 1 + k) % 2 == 1;
  }

  /** ProbableBiTwinChainTestFast. */
  method ProbableBiTwinChainTestFast(o: nat, nSteps: nat) returns (finished: bool, nProbableChainLength: nat)
    requires o >= 4 && o % 2 == 0 && nSteps < 0x100
    ensures finished ==> IsFastTwinLength(o, nProbableChainLength)
    ensures !finished ==> TwinsPass(o, nSteps)
  {
    hide EulerPasses, FermatPasses, LifchitzPasses, MemberPasses, FailedFraction, Walked, ChainMod8, TwinPasses, TwinFraction, FermatRemainder, FractionalLength, Passes;
    finished, nProbableChainLength := true, 0;
    var ok, error;
    ok, nProbableChainLength, error := FermatTestFast(o - 1, nProbableChainLength, true);
    if !ok {
      return;
    }
    nProbableChainLength := nProbableChainLength + FRACTIONAL_ONE;
    ok, nProbableChainLength, error := FermatTestFast(o + 1, nProbableChainLength, true);
    if !ok {
      return;
    }
    nProbableChainLength := nProbableChainLength + FRACTIONAL_ONE;
    BothStart(o);
    EulerImpliesFermat(o - 1);
    EulerImpliesFermat(o + 1);
    WalkStarts(o - 1, true, false);
    WalkStarts(o + 1, false, false);
    var k := 1;
    var m0: int, m1: int := o - 1, o + 1;
    finished := false;
    ghost var j0, j1, w0: int, w1: int := 1, 1, 2 * m0 + 1, 2 * m1 - 1;
    while 2 * k < nSteps && !finished
      invariant k >= 1 && w0 >= 3 && w1 >= 3 && BothWalked(o, j0, j1, w0, w1)
      invariant !finished ==> j0 == j1 == k && w0 == 2 * m0 + 1 && w1 == 2 * m1 - 1 && ChainMod8(w0, true) && ChainMod8(w1, false)
      invariant !finished ==> nProbableChainLength == (2 * k) * FRACTIONAL_ONE
      invariant finished ==> IsFastTwinLength(o, nProbableChainLength)
      decreases nSteps - k, !finished
    {
      m0 := 2 * m0 + 1;
      TwinAt(o, k);
      ok, nProbableChainLength := TestMemberFast(o - 1, true, k, m0, nProbableChainLength, 2 * k < 4);
      if !ok {
        TwinEnds(o, k, k, w0, w1, nProbableChainLength);
        finished := true;
      } else {
        WalkGoesOn(o - 1, true, false, k, w0);
        j0, w0 := k + 1, 2 * m0 + 1;
        nProbableChainLength := nProbableChainLength + FRACTIONAL_ONE;
        m1 := 2 * m1 - 1;
        ok, nProbableChainLength := TestMemberFast(o + 1, false, k, m1, nProbableChainLength, 2 * k < 4);
        if !ok {
          TwinEnds(o, k + 1, k, w0, w1, nProbableChainLength);
          finished := true;
        } else {
          WalkGoesOn(o + 1, false, false, k, w1);
          j1, w1 := k + 1, 2 * m1 - 1;
          nProbableChainLength := nProbableChainLength + FRACTIONAL_ONE;
          k := k + 1;
        }
      }
    }
    if !finished { TwinsWalked(o, k, k, w0, w1); }
  }

  // ---------- the validator's verdict ----------

  function TargetFromInt(nLength: nat): nat {
    nLength * FRACTIONAL_ONE
  }

  /** The bi-twin length that follows from the lengths of the two chains. */
  function BiTwinLength(nCunningham1: nat, nCunningham2: nat): nat {
    if TargetGetLength(nCunningham1) > TargetGetLength(nCunningham2)
    then nCunningham2 + TargetFromInt(TargetGetLength(nCunningham2) + 1)
    else nCunningham1 + TargetFromInt(TargetGetLength(nCunningham1))
  }

  /** ProbablePrimeChainTest. */
  method ProbablePrimeChainTest(origin: nat, nBits: nat, fFermatTest: bool, nSteps: nat)
    returns (finished: bool, ok: bool, nCunningham1: nat, nCunningham2: nat, nBiTwin: nat)
    requires origin >= 2 && nSteps < 0x80
    ensures finished ==> IsChainLength(origin - 1, true, fFermatTest, nCunningham1) && IsChainLength(origin + 1, false, fFermatTest, nCunningham2)
    ensures finished ==> nBiTwin == BiTwinLength(nCunningham1, nCunningham2) < 0x1_0000_0000
    ensures ok <==> nCunningham1 >= nBits || nCunningham2 >= nBits || nBiTwin >= nBits
  {
    hide IsChainLength, Passes;
    var done1, done2, ok1, ok2;
    done1, ok1, nCunningham1 := ProbableCunninghamChainTest(origin - 1, true, fFermatTest, nSteps);
    done2, ok2, nCunningham2 := ProbableCunninghamChainTest(origin + 1, false, fFermatTest, nSteps);
    finished := done1 && done2;
    nBiTwin := if TargetGetLength(nCunningham1) > TargetGetLength(nCunningham2)
               then nCunningham2 + TargetFromInt(TargetGetLength(nCunningham2) + 1)
               else nCunningham1 + TargetFromInt(TargetGetLength(nCunningham1));
    ok := nCunningham1 >= nBits || nCunningham2 >= nBits || nBiTwin >= nBits;
  }

  /** How many members of a bi-twin chain pass in a row: that many of both chains, in turn. */
  lemma BiTwinCounts(nCunningham1: nat, nCunningham2: nat)
    ensures
      var c1, c2 := TargetGetLength(nCunningham1), TargetGetLength(nCunningham2);
      var b := BiTwinLength(nCunningham1, nCunningham2);
      if c1 > c2 then TargetGetLength(b) == 2 * c2 + 1 && TargetGetFractional(b) == TargetGetFractional(nCunningham2)
      else TargetGetLength(b) == 2 * c1 && TargetGetFractional(b) == TargetGetFractional(nCunningham1)
  {
    var c1, c2 := TargetGetLength(nCunningham1), TargetGetLength(nCunningham2);
    LengthOf(2 * c1, TargetGetFractional(nCunningham1));
    LengthOf(2 * c2 + 1, TargetGetFractional(nCunningham2));
    Recompose(nCunningham1);
    Recompose(nCunningham2);
  }

  lemma Recompose(n: nat)
    ensures n == TargetGetLength(n) * FRACTIONAL_ONE + TargetGetFractional(n)
  {
  }

  /** The validator's bi-twin length is the count of twins before the first failure. */
  lemma BiTwinIsTwins(o: nat, nCunningham1: nat, nCunningham2: nat)
    requires o >= 2 && IsChainLength(o - 1, true, false, nCunningham1) && IsChainLength(o + 1, false, false, nCunningham2)
    ensures
      var b := BiTwinLength(nCunningham1, nCunningham2);
      TwinsPass(o, TargetGetLength(b)) && !TwinPasses(o, TargetGetLength(b)) && TargetGetFractional(b) == TwinFraction(o, TargetGetLength(b))
  {
    hide MemberPasses, FailedFraction, TargetGetLength, TargetGetFractional, BiTwinLength;
    var c1, c2 := TargetGetLength(nCunningham1), TargetGetLength(nCunningham2);
    var b := BiTwinLength(nCunningham1, nCunningham2);
    BiTwinCounts(nCunningham1, nCunningham2);
    TwinAt(o, c1);
    TwinAt(o, c2);
    forall i | 0 <= i < TargetGetLength(b) ensures TwinPasses(o, i) {
      assert i % 2 == 0 ==> i / 2 < c1;
      assert i % 2 == 1 ==> i / 2 < c2;
    }
  }

  /** For bi-twin chains too the miner claims no more than the validator finds. */
  lemma FastTwinNeverOverclaims(o: nat, nFast: nat, nCunningham1: nat, nCunningham2: nat)
    requires o >= 4 && o % 2 == 0 && IsFastTwinLength(o, nFast)
    requires IsChainLength(o - 1, true, false, nCunningham1) && IsChainLength(o + 1, false, false, nCunningham2)
    ensures nFast <= BiTwinLength(nCunningham1, nCunningham2)
    ensures TargetGetLength(nFast) >= 4 ==> nFast == BiTwinLength(nCunningham1, nCunningham2)
  {
    hide *;
    var b := BiTwinLength(nCunningham1, nCunningham2);
    BiTwinIsTwins(o, nCunningham1, nCunningham2);
    if EulerPasses(o - 1) && EulerPasses(o + 1) {
      TwinLengths(o, nFast, b);
    } else {
      FirstTwin(o, nFast, b);
    }
  }

  lemma TwinLengths(o: nat, nFast: nat, b: nat)
    requires o >= 2 && IsFastTwinLength(o, nFast) && EulerPasses(o - 1) && EulerPasses(o + 1)
    requires TwinsPass(o, TargetGetLength(b)) && !TwinPasses(o, TargetGetLength(b)) && TargetGetFractional(b) == TwinFraction(o, TargetGetLength(b))
    ensures nFast <= b && (TargetGetLength(nFast) >= 4 ==> nFast == b)
  {
    hide EulerPasses, TwinPasses, TwinFraction, TargetGetLength, TargetGetFractional;
    SameLength(nFast, b);
  }

  lemma FirstTwin(o: nat, nFast: nat, b: nat)
    requires o >= 4 && o % 2 == 0 && IsFastTwinLength(o, nFast) && !TwinPasses(o, TargetGetLength(b))
    requires !(EulerPasses(o - 1) && EulerPasses(o + 1))
    ensures nFast <= b && TargetGetLength(nFast) < 4
  {
    hide EulerPasses, FermatPasses, TwinPasses, TwinsPass, TwinFraction;
    if EulerPasses(o - 1) { FirstPasses(o); }
  }

  lemma FirstPasses(o: nat)
    requires o >= 4 && o % 2 == 0 && EulerPasses(o - 1)
    ensures TwinPasses(o, 0)
  {
    EulerImpliesFermat(o - 1);
    hide EulerPasses, FermatPasses;
  }

  /** ProbablePrimeChainTestFast. */
  method ProbablePrimeChainTestFast(origin: nat, nCandidateType: ChainType, nBits: nat, nSteps: nat) returns (finished: bool, ok: bool, nChainLength: nat)
    requires origin >= 4 && origin % 2 == 0 && nSteps < 0x100
    ensures finished ==> IsFastChain(origin, nCandidateType, nChainLength)
    ensures ok <==> nChainLength >= nBits
  {
    match nCandidateType {
      case Cunningham1 =>
        finished, nChainLength := ProbableCunninghamChainTestFast(origin - 1, true, nSteps);
      case Cunningham2 =>
        finished, nChainLength := ProbableCunninghamChainTestFast(origin + 1, false, nSteps);
      case BiTwin =>
        finished, nChainLength := ProbableBiTwinChainTestFast(origin, nSteps);
    }
    ok := nChainLength >= nBits;
  }

  ghost predicate IsFastChain(origin: nat, nCandidateType: ChainType, nChainLength: nat)
    requires origin >= 2
  {
    match nCandidateType
    case Cunningham1 => IsFastLength(origin - 1, true, nChainLength)
    case Cunningham2 => IsFastLength(origin + 1, false, nChainLength)
    case BiTwin => IsFastTwinLength(origin, nChainLength)
  }

  predicate MeetsTarget(nBits: nat, nCunningham1: nat, nCunningham2: nat) {
    nCunningham1 >= nBits || nCunningham2 >= nBits || BiTwinLength(nCunningham1, nCunningham2) >= nBits
  }

  /** The chain tests of CheckPrimeProofOfWork: the target, and all three lengths the same with
      Fermat tests only. */
  predicate Accepted(nBits: nat, nCunningham1: nat, nCunningham2: nat, nFermat1: nat, nFermat2: nat) {
    && MeetsTarget(nBits, nCunningham1, nCunningham2) && MeetsTarget(nBits, nFermat1, nFermat2)
    && nCunningham1 == nFermat1 && nCunningham2 == nFermat2
    && BiTwinLength(nCunningham1, nCunningham2) == BiTwinLength(nFermat1, nFermat2)
  }

  /** A chain that meets the miner's target meets the validator's. */
  lemma MinedChainMeetsTarget(origin: nat, nCandidateType: ChainType, nBits: nat, nChainLength: nat, nCunningham1: nat, nCunningham2: nat)
    requires origin >= 4 && origin % 2 == 0 && IsFastChain(origin, nCandidateType, nChainLength) && nChainLength >= nBits
    requires IsChainLength(origin - 1, true, false, nCunningham1) && IsChainLength(origin + 1, false, false, nCunningham2)
    ensures MeetsTarget(nBits, nCunningham1, nCunningham2)
  {
    hide IsFastLength, IsFastTwinLength, IsChainLength;
    match nCandidateType {
      case Cunningham1 => FastNeverOverclaims(origin - 1, true, nChainLength, nCunningham1);
      case Cunningham2 => FastNeverOverclaims(origin + 1, false, nChainLength, nCunningham2);
      case BiTwin => FastTwinNeverOverclaims(origin, nChainLength, nCunningham1, nCunningham2);
    }
  }

  /** It is accepted if and only if the members that end the two chains fail Fermat's test too. */
  lemma MinedChainIsAcceptedIff(origin: nat, nCandidateType: ChainType, nBits: nat, nChainLength: nat,
                                nCunningham1: nat, nCunningham2: nat, nFermat1: nat, nFermat2: nat)
    requires origin >= 4 && origin % 2 == 0 && IsFastChain(origin, nCandidateType, nChainLength) && nChainLength >= nBits
    requires IsChainLength(origin - 1, true, false, nCunningham1) && IsChainLength(origin + 1, false, false, nCunningham2)
    requires IsChainLength(origin - 1, true, true, nFermat1) && IsChainLength(origin + 1, false, true, nFermat2)
    ensures Accepted(nBits, nCunningham1, nCunningham2, nFermat1, nFermat2) <==>
              && !MemberPasses(origin - 1, true, true, TargetGetLength(nCunningham1))
              && !MemberPasses(origin + 1, false, true, TargetGetLength(nCunningham2))
  {
    hide IsFastChain, IsChainLength, MemberPasses, BiTwinLength, TargetGetLength;
    MinedChainMeetsTarget(origin, nCandidateType, nBits, nChainLength, nCunningham1, nCunningham2);
    FermatChainAtLeast(origin - 1, true, nCunningham1, nFermat1);
    FermatChainAtLeast(origin + 1, false, nCunningham2, nFermat2);
  }
}
