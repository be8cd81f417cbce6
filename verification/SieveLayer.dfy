/** One layer of the sieve over one chunk of the array (prime.cpp, ProcessMultiplier and
    the ApplyLayer and CombineBitsets loops). */
module SieveLayer {
  import opened Arithmetic
  import opened SieveBits
  import opened SieveSpec

  const UINT_MAX: nat := 0xFFFF_FFFF

  ghost predicate SameClass(p: nat, i: nat, a: nat) {
    p > 0 && i % p == a % p
  }

  /** An entry of a multiplier table: the first index from lo on that its prime hits in layer
      k, or UINT_MAX when it hits none. */
  ghost predicate EntryOk(t: Task, sign: Sign, k: nat, p: nat, m: nat, lo: nat) {
    || (m == UINT_MAX && forall i: nat :: !Hits(p, t.nFixed, sign, k, i))
    || (lo <= m < lo + p && forall i: nat :: Hits(p, t.nFixed, sign, k, i) <==> SameClass(p, i, m))
  }

  /** The row of layer k, at offset `base` of the table; the prime 2 takes no part. */
  ghost predicate RowOk(t: Task, sign: Sign, vMultipliers: array<nat>, base: nat, k: nat, lo: nat)
    reads vMultipliers
  {
    && 0 < t.nPrimes && base + t.nPrimes <= vMultipliers.Length && t.nPrimes <= |t.vPrimes|
    && vMultipliers[base] == UINT_MAX
    && forall x | base < x < base + t.nPrimes :: EntryOk(t, sign, k, t.vPrimes[x - base], vMultipliers[x], lo)
  }

  /** The row's entries below the first prime that is not in the fixed factor. */
  ghost predicate RowStartsAt(vMultipliers: array<nat>, base: nat, nMinPrimeSeq: nat)
    reads vMultipliers
  {
    base + nMinPrimeSeq <= vMultipliers.Length && forall x | base < x < base + nMinPrimeSeq :: vMultipliers[x] == UINT_MAX
  }

  lemma NextOfClass(p: nat, a: nat, i: nat)
    requires a <= i && SameClass(p, i, a)
    ensures i == a || i >= a + p
  {
    SameResidue(p, i, a);
    if a < i < a + p { DividesBounded(p, i - a); }
  }

  /** Going on from one member of the class leaves out no other. */
  lemma ClassStep(p: nat, start: nat, next: nat)
    requires SameClass(p, next, start) && start <= next
    ensures SameClass(p, next + p, start)
    ensures forall i: nat | next <= i < next + p && SameClass(p, i, start) :: i == next
  {
    SameResidue(p, next + p, next);
    DividesByQuotient(p, p, 1);
    forall i: nat | next <= i < next + p && SameClass(p, i, start) ensures i == next {
      NextOfClass(p, next, i);
    }
  }

  /** Sets every nPrime-th bit from nVariableMultiplier up to nMaxMultiplier. */
  method MarkMultiples(vfComposites: array<Word>, nVariableMultiplier: nat, nPrime: nat, nMaxMultiplier: nat) returns (next: nat)
    requires 0 < nPrime && nMaxMultiplier <= WORD_BITS * vfComposites.Length && nVariableMultiplier < nMaxMultiplier
    modifies vfComposites
    ensures forall i: nat | i < nMaxMultiplier :: Bit(vfComposites, 0, i) <==>
              old(Bit(vfComposites, 0, i)) || (nVariableMultiplier <= i && SameClass(nPrime, i, nVariableMultiplier))
    ensures nMaxMultiplier <= next < nMaxMultiplier + nPrime && SameClass(nPrime, next, nVariableMultiplier)
  {
    next := nVariableMultiplier;
    assert SameClass(nPrime, next, next);
    hide Bit, SameClass;
    while next < nMaxMultiplier
      invariant nVariableMultiplier <= next < nMaxMultiplier + nPrime && SameClass(nPrime, next, nVariableMultiplier)
      invariant forall i: nat | i < nMaxMultiplier :: Bit(vfComposites, 0, i) <==>
                  old(Bit(vfComposites, 0, i)) || (nVariableMultiplier <= i < next && SameClass(nPrime, i, nVariableMultiplier))
    {
      MarkOne(vfComposites, next);
      ClassStep(nPrime, nVariableMultiplier, next);
      next := next + nPrime;
    }
  }

  method MarkOne(vfComposites: array<Word>, i: nat)
    requires i < WORD_BITS * vfComposites.Length
    modifies vfComposites
    ensures forall j: nat :: Bit(vfComposites, 0, j) <==> old(Bit(vfComposites, 0, j)) || j == i
  {
    WordRange(i, vfComposites.Length);
    var w := GetWordNum(i);
    vfComposites[w] := Or(vfComposites[w], GetBitMask(i));
    forall j: nat ensures Bit(vfComposites, 0, j) <==> old(Bit(vfComposites, 0, j)) || j == i {
      WordIndex(i, j);
      if j / WORD_BITS == w { SetOneBit(old(vfComposites[w]), i, j % WORD_BITS); }
    }
  }

  /** Clears the words of a chunk that starts on a word boundary. */
  method Wipe(vfComposites: array<Word>, nMinMultiplier: nat, nMaxMultiplier: nat)
    requires nMinMultiplier <= nMaxMultiplier <= WORD_BITS * vfComposites.Length && nMinMultiplier % WORD_BITS == 0
    modifies vfComposites
    ensures forall i: nat | nMinMultiplier <= i < nMaxMultiplier :: !Bit(vfComposites, 0, i)
  {
    var first := GetWordNum(nMinMultiplier);
    var count := (nMaxMultiplier - nMinMultiplier + WORD_BITS - 1) / WORD_BITS;
    for w := first to first + count
      invariant forall v | first <= v < w :: vfComposites[v] == ZERO
    {
      vfComposites[w] := ZERO;
    }
    forall i: nat | nMinMultiplier <= i < nMaxMultiplier ensures !Bit(vfComposites, 0, i) {
      assert first <= i / WORD_BITS < first + count;
      ZeroHasNoBit(i % WORD_BITS);
    }
  }

  lemma StruckBelowStep(t: Task, sign: Sign, k: nat, s: nat, i: nat)
    requires 1 <= s < |t.vPrimes|
    ensures StruckBelow(t, sign, k, s + 1, i) <==> StruckBelow(t, sign, k, s, i) || Hits(t.vPrimes[s], t.nFixed, sign, k, i)
  {
    hide Hits;
  }

  lemma SkipTwo(t: Task, sign: Sign, k: nat, i: nat)
    ensures StruckBelow(t, sign, k, 1, i) <==> StruckBelow(t, sign, k, 0, i)
  {
  }

  /** A row whose first s entries have moved on to hi. */
  ghost predicate RowMoved(t: Task, sign: Sign, vMultipliers: array<nat>, base: nat, k: nat, s: nat, lo: nat, hi: nat)
    reads vMultipliers
  {
    && 0 < t.nPrimes && base + t.nPrimes <= vMultipliers.Length && t.nPrimes <= |t.vPrimes|
    && vMultipliers[base] == UINT_MAX
    && forall x | base < x < base + t.nPrimes ::
         EntryOk(t, sign, k, t.vPrimes[x - base], vMultipliers[x], if x < base + s then hi else lo)
  }

  lemma RowStart(t: Task, sign: Sign, vMultipliers: array<nat>, base: nat, k: nat, nMinPrimeSeq: nat, lo: nat, hi: nat, i: nat)
    requires TaskOk(t) && RowOk(t, sign, vMultipliers, base, k, lo) && RowStartsAt(vMultipliers, base, nMinPrimeSeq)
    requires nMinPrimeSeq <= t.nPrimes && lo <= 10_000_000
    ensures RowMoved(t, sign, vMultipliers, base, k, nMinPrimeSeq, lo, hi)
    ensures !StruckBelow(t, sign, k, nMinPrimeSeq, i)
  {
    hide Hits, SameClass, IsPrime;
    forall r | 1 <= r < nMinPrimeSeq ensures !Hits(t.vPrimes[r], t.nFixed, sign, k, i) {
      var x := base + r;
      assert vMultipliers[x] == UINT_MAX;
      assert OddPrime(t.vPrimes[r]);
    }
    forall x | base < x < base + t.nPrimes
      ensures EntryOk(t, sign, k, t.vPrimes[x - base], vMultipliers[x], if x < base + nMinPrimeSeq then hi else lo)
    {
      assert OddPrime(t.vPrimes[x - base]);
    }
  }

  /** What an entry says about the chunk from lo to hi, and how it moves past it. */
  lemma EntryMoves(t: Task, sign: Sign, k: nat, p: nat, m: nat, lo: nat, hi: nat, next: nat)
    requires OddPrime(p) && EntryOk(t, sign, k, p, m, lo) && lo <= hi <= 10_000_000
    requires if m < hi then hi <= next < hi + p && SameClass(p, next, m) else next == m
    ensures EntryOk(t, sign, k, p, next, hi) && next <= UINT_MAX
    ensures forall i: nat | lo <= i < hi :: Hits(p, t.nFixed, sign, k, i) <==> m < hi && m <= i && SameClass(p, i, m)
  {
    hide Hits, IsPrime;
    forall i: nat | lo <= i < hi ensures Hits(p, t.nFixed, sign, k, i) <==> m < hi && m <= i && SameClass(p, i, m) {
      if SameClass(p, i, m) && i < m && m < lo + p {
        NextOfClass(p, i, m);
      }
    }
  }

  lemma RowStep(t: Task, sign: Sign, vMultipliers: array<nat>, base: nat, k: nat, s: nat, lo: nat, hi: nat)
    requires s < t.nPrimes <= |t.vPrimes| && base + t.nPrimes <= vMultipliers.Length && vMultipliers[base] == UINT_MAX
    requires forall x | base < x < base + t.nPrimes && x != base + s ::
               EntryOk(t, sign, k, t.vPrimes[x - base], vMultipliers[x], if x < base + s then hi else lo)
    requires s == 0 || EntryOk(t, sign, k, t.vPrimes[s], vMultipliers[base + s], hi)
    ensures RowMoved(t, sign, vMultipliers, base, k, s + 1, lo, hi)
  {
    hide EntryOk;
    forall x | base < x < base + t.nPrimes
      ensures EntryOk(t, sign, k, t.vPrimes[x - base], vMultipliers[x], if x < base + s + 1 then hi else lo)
    {
      if x == base + s { assert x - base == s; }
    }
  }

  /** Strikes the multiples of one prime and moves its entry past the chunk. */
  method ProcessPrime(ghost t: Task, ghost sign: Sign, vfComposites: array<Word>, ghost nMinMultiplier: nat, nMaxMultiplier: nat,
                      vMultipliers: array<nat>, ghost base: nat, ghost k: nat, nPrimeSeq: nat, x: nat, nPrime: nat)
    requires TaskOk(t) && nPrimeSeq < t.nPrimes && t.vPrimes[nPrimeSeq] == nPrime && x == base + nPrimeSeq
    requires nMinMultiplier <= nMaxMultiplier <= WORD_BITS * vfComposites.Length && nMaxMultiplier <= 10_000_000
    requires RowMoved(t, sign, vMultipliers, base, k, nPrimeSeq, nMinMultiplier, nMaxMultiplier)
    modifies vfComposites, vMultipliers
    ensures RowMoved(t, sign, vMultipliers, base, k, nPrimeSeq + 1, nMinMultiplier, nMaxMultiplier)
    ensures forall i: nat | nMinMultiplier <= i < nMaxMultiplier ::
              Bit(vfComposites, 0, i) <==>
                old(Bit(vfComposites, 0, i)) || (nPrimeSeq > 0 && Hits(nPrime, t.nFixed, sign, k, i))
    ensures forall y | 0 <= y < vMultipliers.Length && y != x :: vMultipliers[y] == old(vMultipliers[y])
    ensures nPrimeSeq == 0 || old(vMultipliers[x]) == UINT_MAX ==> vMultipliers[x] == old(vMultipliers[x])
  {
    hide Bit, Hits, SameClass, IsPrime;
    var nVariableMultiplier := vMultipliers[x];
    var next := nVariableMultiplier;
    assert nPrimeSeq > 0 ==> EntryOk(t, sign, k, t.vPrimes[x - base], vMultipliers[x], nMinMultiplier);
    hide EntryOk;
    if nVariableMultiplier < nMaxMultiplier {
      assert OddPrime(nPrime);
      next := MarkMultiples(vfComposites, nVariableMultiplier, nPrime, nMaxMultiplier);
      vMultipliers[x] := next;
    }
    if nPrimeSeq > 0 {
      EntryMoves(t, sign, k, nPrime, nVariableMultiplier, nMinMultiplier, nMaxMultiplier, next);
    }
    RowStep(t, sign, vMultipliers, base, k, nPrimeSeq, nMinMultiplier, nMaxMultiplier);
  }

  /** Strikes the multiples of every prime in one layer of one chunk. */
  method ProcessMultiplier(ghost t: Task, ghost sign: Sign, vfComposites: array<Word>, nMinMultiplier: nat, nMaxMultiplier: nat,
                           vMultipliers: array<nat>, nLayerSeq: nat, vPrimes: seq<nat>, nPrimes: nat, nMinPrimeSeq: nat)
    requires TaskOk(t) && t.vPrimes == vPrimes && t.nPrimes == nPrimes && nMinPrimeSeq < nPrimes
    requires nMinMultiplier <= nMaxMultiplier <= WORD_BITS * vfComposites.Length && nMinMultiplier % WORD_BITS == 0
    requires nMaxMultiplier <= 10_000_000
    requires RowOk(t, sign, vMultipliers, nLayerSeq * nPrimes, nLayerSeq, nMinMultiplier)
    requires RowStartsAt(vMultipliers, nLayerSeq * nPrimes, nMinPrimeSeq)
    modifies vfComposites, vMultipliers
    ensures forall i: nat | nMinMultiplier <= i < nMaxMultiplier :: Bit(vfComposites, 0, i) <==> Struck(t, sign, nLayerSeq, i)
    ensures RowOk(t, sign, vMultipliers, nLayerSeq * nPrimes, nLayerSeq, nMaxMultiplier)
    ensures RowStartsAt(vMultipliers, nLayerSeq * nPrimes, nMinPrimeSeq)
    ensures forall x | 0 <= x < vMultipliers.Length && !(nLayerSeq * nPrimes < x < nLayerSeq * nPrimes + nPrimes) ::
              vMultipliers[x] == old(vMultipliers[x])
  {
    var nMultiplierIndexBegin := nLayerSeq * nPrimes;
    Wipe(vfComposites, nMinMultiplier, nMaxMultiplier);
    forall i: nat ensures !StruckBelow(t, sign, nLayerSeq, nMinPrimeSeq, i) {
      RowStart(t, sign, vMultipliers, nMultiplierIndexBegin, nLayerSeq, nMinPrimeSeq, nMinMultiplier, nMaxMultiplier, i);
    }
    RowStart(t, sign, vMultipliers, nMultiplierIndexBegin, nLayerSeq, nMinPrimeSeq, nMinMultiplier, nMaxMultiplier, 0);
    hide Bit, Hits, StruckBelow, OddPrime, EntryOk, RowMoved;
    var nPrimeSeq := nMinPrimeSeq;
    while nPrimeSeq < nPrimes
      invariant nMinPrimeSeq <= nPrimeSeq <= nPrimes
      invariant RowMoved(t, sign, vMultipliers, nMultiplierIndexBegin, nLayerSeq, nPrimeSeq, nMinMultiplier, nMaxMultiplier)
      invariant RowStartsAt(vMultipliers, nMultiplierIndexBegin, nMinPrimeSeq)
      invariant forall i: nat | nMinMultiplier <= i < nMaxMultiplier :: Bit(vfComposites, 0, i) <==> StruckBelow(t, sign, nLayerSeq, nPrimeSeq, i)
      invariant forall x | 0 <= x < vMultipliers.Length && !(nMultiplierIndexBegin < x < nMultiplierIndexBegin + nPrimes) ::
                  vMultipliers[x] == old(vMultipliers[x])
    {
      ProcessPrime(t, sign, vfComposites, nMinMultiplier, nMaxMultiplier, vMultipliers, nMultiplierIndexBegin, nLayerSeq,
                   nPrimeSeq, nMultiplierIndexBegin + nPrimeSeq, vPrimes[nPrimeSeq]);
      forall i: nat | nMinMultiplier <= i < nMaxMultiplier
        ensures Bit(vfComposites, 0, i) <==> StruckBelow(t, sign, nLayerSeq, nPrimeSeq + 1, i)
      {
        if nPrimeSeq == 0 { SkipTwo(t, sign, nLayerSeq, i); } else { StruckBelowStep(t, sign, nLayerSeq, nPrimeSeq, i); }
      }
      nPrimeSeq := nPrimeSeq + 1;
    }
    RowAllMoved(t, sign, vMultipliers, nMultiplierIndexBegin, nLayerSeq, nMinMultiplier, nMaxMultiplier);
  }

  lemma RowAllMoved(t: Task, sign: Sign, vMultipliers: array<nat>, base: nat, k: nat, lo: nat, hi: nat)
    requires RowMoved(t, sign, vMultipliers, base, k, t.nPrimes, lo, hi)
    ensures RowOk(t, sign, vMultipliers, base, k, hi)
  {
    hide EntryOk;
  }
}
