/** The first half of Weave: the multiplier tables (prime.cpp, CSieveOfEratosthenes::Weave). */
module SieveMultipliers {
  import opened Arithmetic
  import opened SieveSpec
  import opened SieveLayer

  // ---------- combined divisors ----------

  /** The table reaches far enough for the combined divisors to stay inside it. */
  ghost predicate TableLongEnough(vPrimes: seq<nat>) {
    |vPrimes| >= 2 && vPrimes[|vPrimes| - 2] >= 65536 && vPrimes[|vPrimes| - 1] > 65536
  }

  ghost predicate DividesAll(vPrimes: seq<nat>, from: nat, to: nat, c: nat) {
    to <= |vPrimes| && forall r | from <= r < to :: Divides(vPrimes[r], c)
  }

  lemma DividesProduct(d: nat, c: nat, p: nat)
    requires Divides(d, c) && p > 0
    ensures Divides(d, c * p) && Divides(p, c * p)
  {
    DividesLinear(d, c, c, p, 0);
    assert p * c + 0 * c == c * p;
    DividesByQuotient(p, c * p, c);
  }

  lemma NextCombined(c: nat, p: nat)
    requires 0 < p && 1 <= c < UINT_MAX / p
    ensures c <= c * p <= UINT_MAX && p <= c * p
  {
    MulMono(p, c, UINT_MAX / p);
    MulMono(c, 1, p);
    MulMono(p, 1, c);
  }

  lemma LastPrimeStops(p: nat, c: nat)
    requires p > 65536 && c >= 65536
    ensures c >= UINT_MAX / p
  {
    if UINT_MAX / p >= 65536 { MulMono(p, 65536, UINT_MAX / p); }
  }

  lemma CombinedStep(vPrimes: seq<nat>, from: nat, to: nat, c: nat)
    requires DividesAll(vPrimes, from, to, c) && to < |vPrimes| && vPrimes[to] > 0
    ensures DividesAll(vPrimes, from, to + 1, c * vPrimes[to])
  {
    DividesByQuotient(vPrimes[to], c * vPrimes[to], c);
    hide Divides;
    forall r | from <= r < to ensures Divides(vPrimes[r], c * vPrimes[to]) {
      DividesProduct(vPrimes[r], c, vPrimes[to]);
    }
  }

  /** Combines primes of the table into one divisor that fits 32 bits. */
  method CombinePrimes(vPrimes: seq<nat>, nCombinedBegin: nat) returns (nPrimeCombined: nat, nCombinedEndSeq: nat)
    requires TableLongEnough(vPrimes) && 1 <= nCombinedBegin < |vPrimes| - 1
    requires forall s | 1 <= s < |vPrimes| :: OddPrime(vPrimes[s])
    ensures nCombinedBegin < nCombinedEndSeq < |vPrimes| && 0 < nPrimeCombined <= UINT_MAX
    ensures DividesAll(vPrimes, nCombinedBegin, nCombinedEndSeq, nPrimeCombined)
  {
    forall s | 1 <= s < |vPrimes| ensures 0 < vPrimes[s] < 1_000_000 {
      assert OddPrime(vPrimes[s]);
    }
    hide Divides, OddPrime, DividesAll;
    nPrimeCombined, nCombinedEndSeq := 1, nCombinedBegin;
    NothingToDivide(vPrimes, nCombinedBegin);
    while nPrimeCombined < UINT_MAX / vPrimes[nCombinedEndSeq]
      invariant nCombinedBegin <= nCombinedEndSeq < |vPrimes| && 1 <= nPrimeCombined <= UINT_MAX
      invariant nCombinedEndSeq == nCombinedBegin ==> nPrimeCombined == 1
      invariant nCombinedEndSeq == |vPrimes| - 1 ==> nPrimeCombined >= 65536
      invariant DividesAll(vPrimes, nCombinedBegin, nCombinedEndSeq, nPrimeCombined)
      decreases |vPrimes| - nCombinedEndSeq
    {
      var p := vPrimes[nCombinedEndSeq];
      if nCombinedEndSeq == |vPrimes| - 1 {
        LastPrimeStops(p, nPrimeCombined);
      }
      NextCombined(nPrimeCombined, p);
      CombinedStep(vPrimes, nCombinedBegin, nCombinedEndSeq, nPrimeCombined);
      nPrimeCombined := nPrimeCombined * p;
      nCombinedEndSeq := nCombinedEndSeq + 1;
    }
    SmallPrimeFits(vPrimes[nCombinedBegin]);
  }

  lemma NothingToDivide(vPrimes: seq<nat>, from: nat)
    requires from <= |vPrimes|
    ensures DividesAll(vPrimes, from, from, 1)
  {
  }

  lemma SmallPrimeFits(p: nat)
    requires 0 < p < 1_000_000
    ensures 1 < UINT_MAX / p
  {
    if UINT_MAX / p <= 1 { MulMono(p, UINT_MAX / p, 1); }
  }

  lemma ModOfMod(p: nat, c: nat, F: nat)
    requires p > 0 && c > 0 && Divides(p, c)
    ensures (F % c) % p == F % p
  {
    var q := F / c;
    assert F == c * q + F % c;
    DividesLinear(p, c, c, q, 0);
    assert F - F % c == q * c + 0 * c;
    hide Divides;
    SameResidue(p, F, F % c);
  }

  lemma ModOfProduct(H: nat, M: nat, c: nat)
    requires c > 0
    ensures ((H % c) * (M % c)) % c == (H * M) % c
  {
    var a, b := H % c, M % c;
    CongruentResidue(c, H);
    CongruentResidue(c, M);
    hide Congruent;
    CongruentMul(c, a, H, b);
    CongruentMul(c, b, M, H);
    assert b * a == a * b && b * H == H * b;
    CongruentTrans(c, a * b, H * b, H * M);
    CongruentMeansSame(c, a * b, H * M);
  }

  lemma CongruentMeansSame(p: nat, a: int, b: int)
    requires p > 0 && Congruent(p, a, b)
    ensures a % p == b % p
  {
    SameResidue(p, a, b);
  }

  /** The fixed factor modulo a combined divisor. */
  method CombinedMod(mpzHash: nat, mpzFixedMultiplier: nat, nPrimeCombined: nat) returns (nFixedFactorCombinedMod: nat)
    requires 0 < nPrimeCombined <= UINT_MAX
    ensures nFixedFactorCombinedMod == (mpzHash * mpzFixedMultiplier) % nPrimeCombined
  {
    var fUseLongForFixedMultiplier := mpzFixedMultiplier < 0xFFFF_FFFF_FFFF_FFFF;
    if fUseLongForFixedMultiplier {
      var nFixedMultiplier := mpzFixedMultiplier;
      nFixedFactorCombinedMod := mpzHash % nPrimeCombined;
      ModOfProduct(mpzHash, nFixedMultiplier, nPrimeCombined);
      nFixedFactorCombinedMod := (nFixedFactorCombinedMod * (nFixedMultiplier % nPrimeCombined)) % nPrimeCombined;
    } else {
      nFixedFactorCombinedMod := (mpzHash * mpzFixedMultiplier) % nPrimeCombined;
    }
  }

  // ---------- the tables ----------

  /** Where a table keeps the entry of a layer and a prime. */
  function At(k: nat, nPrimes: nat, r: nat): nat {
    k * nPrimes + r
  }

  lemma AtIsInjective(k: nat, k': nat, nPrimes: nat, r: nat, r': nat)
    requires r < nPrimes && r' < nPrimes && At(k, nPrimes, r) == At(k', nPrimes, r')
    ensures k == k' && r == r'
  {
    if k < k' { MulMono(nPrimes, k + 1, k'); }
    if k' < k { MulMono(nPrimes, k' + 1, k); }
  }

  lemma AtInTable(k: nat, nLayers: nat, nPrimes: nat, r: nat)
    requires r < nPrimes
    ensures k < nLayers <==> At(k, nPrimes, r) < r + nLayers * nPrimes
    ensures k < nLayers ==> At(k, nPrimes, r) < nLayers * nPrimes
  {
    if k < nLayers { MulMono(nPrimes, k + 1, nLayers); } else { MulMono(nPrimes, nLayers, k); }
  }

  /** The entry of layer k and prime r when the first s primes have been entered, and prime s
      itself in the first `done` layers. */
  ghost predicate CellOk(t: Task, sign: Sign, k: nat, r: nat, m: nat, s: nat, done: nat) {
    if 1 <= r < |t.vPrimes| && (r < s || (r == s && k < done)) then EntryOk(t, sign, k, t.vPrimes[r], m, 0) else m == UINT_MAX
  }

  ghost predicate CellAt(t: Task, sign: Sign, vMultipliers: array<nat>, k: nat, r: nat, s: nat, done: nat)
    reads vMultipliers
  {
    At(k, t.nPrimes, r) < vMultipliers.Length && CellOk(t, sign, k, r, vMultipliers[At(k, t.nPrimes, r)], s, done)
  }

  ghost predicate TableOk(t: Task, sign: Sign, vMultipliers: array<nat>, nLayers: nat, s: nat, done: nat)
    reads vMultipliers
  {
    && vMultipliers.Length == nLayers * t.nPrimes
    && forall k: nat, r: nat | k < nLayers && r < t.nPrimes :: CellAt(t, sign, vMultipliers, k, r, s, done)
  }

  method StoreOne(ghost t: Task, ghost sign: Sign, vMultipliers: array<nat>, ghost nLayers: nat, ghost s: nat, ghost k: nat, x: nat, m: nat)
    requires TaskOk(t) && 1 <= s < t.nPrimes && k < nLayers && x == At(k, t.nPrimes, s)
    requires TableOk(t, sign, vMultipliers, nLayers, s, k) && EntryOk(t, sign, k, t.vPrimes[s], m, 0)
    modifies vMultipliers
    ensures TableOk(t, sign, vMultipliers, nLayers, s, k + 1)
  {
    AtInTable(k, nLayers, t.nPrimes, s);
    hide EntryOk, At;
    vMultipliers[x] := m;
    ghost var done := k + 1;
    forall k': nat, r: nat | k' < nLayers && r < t.nPrimes ensures CellAt(t, sign, vMultipliers, k', r, s, done) {
      assert old(CellAt(t, sign, vMultipliers, k', r, s, k));
      if At(k', t.nPrimes, r) == x { AtIsInjective(k, k', t.nPrimes, s, r); }
    }
  }

  lemma NextColumn(t: Task, sign: Sign, vMultipliers: array<nat>, nLayers: nat, s: nat)
    requires TableOk(t, sign, vMultipliers, nLayers, s, nLayers)
    ensures TableOk(t, sign, vMultipliers, nLayers, s + 1, 0)
  {
    hide EntryOk, At;
    var next := s + 1;
    forall k: nat, r: nat | k < nLayers && r < t.nPrimes ensures CellAt(t, sign, vMultipliers, k, r, next, 0) {
      assert CellAt(t, sign, vMultipliers, k, r, s, nLayers);
    }
  }

  /** A prime in the fixed factor keeps its UINT_MAX entries. */
  lemma SkipColumn(t: Task, sign: Sign, vMultipliers: array<nat>, nLayers: nat, s: nat)
    requires TaskOk(t) && 1 <= s < t.nPrimes && TableOk(t, sign, vMultipliers, nLayers, s, 0)
    requires Divides(t.vPrimes[s], t.nFixed)
    ensures TableOk(t, sign, vMultipliers, nLayers, s + 1, 0)
  {
    assert OddPrime(t.vPrimes[s]);
    forall k: nat ensures EntryOk(t, sign, k, t.vPrimes[s], UINT_MAX, 0) {
      forall i: nat ensures !Hits(t.vPrimes[s], t.nFixed, sign, k, i) {
        FixedFactorNeverHits(t.vPrimes[s], t.nFixed, sign, k, i);
      }
    }
    hide EntryOk, At, TaskOk;
    var next := s + 1;
    forall k: nat, r: nat | k < nLayers && r < t.nPrimes ensures CellAt(t, sign, vMultipliers, k, r, next, 0) {
      assert CellAt(t, sign, vMultipliers, k, r, s, 0);
    }
  }

  lemma StoredEntriesOk(t: Task, k: nat, p: nat, inv: nat)
    requires OddPrime(p) && Inverse(p, t.nFixed * Pow2(k), inv)
    ensures EntryOk(t, Minus, k, p, HalfOdd(p, inv), 0) && EntryOk(t, Plus, k, p, HalfOdd(p, p - inv), 0)
  {
    assert 0 < inv < p;
    hide Hits, Inverse, OddPrime, Pow2;
    MultiplierHits(p, t.nFixed, k, inv, 0);
    SmallResidue(p, HalfOdd(p, inv));
    SmallResidue(p, HalfOdd(p, p - inv));
    forall i: nat
      ensures Hits(p, t.nFixed, Minus, k, i) <==> SameClass(p, i, HalfOdd(p, inv))
      ensures Hits(p, t.nFixed, Plus, k, i) <==> SameClass(p, i, HalfOdd(p, p - inv))
    {
      MultiplierHits(p, t.nFixed, k, inv, i);
    }
  }

  /** Enters one prime's multipliers in both tables, one layer after another. */
  method StoreMultipliers(ghost t: Task, vMultipliers1: array<nat>, vMultipliers2: array<nat>, nSieveLayers: nat,
                          nPrimeSeq: nat, nPrimes: nat, nPrime: nat, inverse: nat)
    requires TaskOk(t) && t.nPrimes == nPrimes && 1 <= nPrimeSeq < nPrimes && t.vPrimes[nPrimeSeq] == nPrime
    requires Inverse(nPrime, t.nFixed, inverse) && vMultipliers1 != vMultipliers2
    requires TableOk(t, Minus, vMultipliers1, nSieveLayers, nPrimeSeq, 0) && TableOk(t, Plus, vMultipliers2, nSieveLayers, nPrimeSeq, 0)
    modifies vMultipliers1, vMultipliers2
    ensures TableOk(t, Minus, vMultipliers1, nSieveLayers, nPrimeSeq + 1, 0)
    ensures TableOk(t, Plus, vMultipliers2, nSieveLayers, nPrimeSeq + 1, 0)
  {
    assert OddPrime(nPrime);
    OddPrimeIsOdd(nPrime);
    assert t.nFixed * Pow2(0) == t.nFixed;
    var nTwoInverse := (nPrime + 1) / 2;
    var nFixedInverse: nat := inverse;
    var nMultiplierIndex := nPrimeSeq;
    ghost var k := 0;
    AtInTable(0, nSieveLayers, nPrimes, nPrimeSeq);
    assert nMultiplierIndex == At(0, nPrimes, nPrimeSeq);
    hide TableOk, EntryOk, HalfOdd, Congruent, OddPrime, Pow2, At;
    while nMultiplierIndex < nPrimeSeq + nSieveLayers * nPrimes
      invariant k <= nSieveLayers && nMultiplierIndex == At(k, nPrimes, nPrimeSeq)
      invariant k < nSieveLayers <==> nMultiplierIndex < nPrimeSeq + nSieveLayers * nPrimes
      invariant Inverse(nPrime, t.nFixed * Pow2(k), nFixedInverse)
      invariant TableOk(t, Minus, vMultipliers1, nSieveLayers, nPrimeSeq, k) && TableOk(t, Plus, vMultipliers2, nSieveLayers, nPrimeSeq, k)
      decreases nSieveLayers - k
    {
      var nCC1Mult := HalfOdd(nPrime, nFixedInverse);
      var nCC2Mult := HalfOdd(nPrime, nPrime - nFixedInverse);
      StoredEntriesOk(t, k, nPrime, nFixedInverse);
      StoreOne(t, Minus, vMultipliers1, nSieveLayers, nPrimeSeq, k, nMultiplierIndex, nCC1Mult);
      StoreOne(t, Plus, vMultipliers2, nSieveLayers, nPrimeSeq, k, nMultiplierIndex, nCC2Mult);
      NextInverse(nPrime, t.nFixed, k, nFixedInverse);
      nFixedInverse := (nFixedInverse * nTwoInverse) % nPrime;
      AtNext(k, nPrimes, nPrimeSeq);
      AtInTable(k + 1, nSieveLayers, nPrimes, nPrimeSeq);
      k := k + 1;
      nMultiplierIndex := nMultiplierIndex + nPrimes;
    }
    NextColumn(t, Minus, vMultipliers1, nSieveLayers, nPrimeSeq);
    NextColumn(t, Plus, vMultipliers2, nSieveLayers, nPrimeSeq);
  }

  lemma AtNext(k: nat, nPrimes: nat, r: nat)
    ensures At(k + 1, nPrimes, r) == At(k, nPrimes, r) + nPrimes
  {
  }

  lemma InverseFound(p: nat, F: nat, a: nat, inv: nat)
    requires p >= 2 && a == F % p && 0 < inv < p && (a * inv) % p == 1
    ensures Inverse(p, F, inv)
  {
    SameResidue(p, a * inv, 1);
    ResidueIsUnique(p, 1, 0, 1);
    CongruentResidue(p, F);
    assert Congruent(p, inv * a, 1) by { assert inv * a == a * inv; }
    hide Congruent;
    CongruentMul(p, F, a, inv);
    CongruentTrans(p, inv * F, inv * a, 1);
    assert inv * F == F * inv;
  }

  /** No prime before nMinPrimeSeq (none at all when it is 0) is outside the fixed factor. */
  ghost predicate FactorsBefore(t: Task, nMinPrimeSeq: nat, s: nat) {
    forall r | 1 <= r < s && r < |t.vPrimes| && (nMinPrimeSeq == 0 || r < nMinPrimeSeq) :: Divides(t.vPrimes[r], t.nFixed)
  }

  /** Weave's first loop: fills both tables, every layer of every prime. */
  method ComputeMultipliers(ghost t: Task, vPrimes: seq<nat>, nPrimes: nat, mpzHash: nat, mpzFixedMultiplier: nat,
                            vMultipliers1: array<nat>, vMultipliers2: array<nat>, nSieveLayers: nat)
    returns (nMinPrimeSeq: nat)
    requires TaskOk(t) && t.vPrimes == vPrimes && t.nPrimes == nPrimes && t.nFixed == mpzHash * mpzFixedMultiplier && 0 < nPrimes
    requires TableLongEnough(vPrimes) && vMultipliers1 != vMultipliers2
    requires TableOk(t, Minus, vMultipliers1, nSieveLayers, 1, 0) && TableOk(t, Plus, vMultipliers2, nSieveLayers, 1, 0)
    modifies vMultipliers1, vMultipliers2
    ensures TableOk(t, Minus, vMultipliers1, nSieveLayers, nPrimes, 0) && TableOk(t, Plus, vMultipliers2, nSieveLayers, nPrimes, 0)
    ensures nMinPrimeSeq < nPrimes && FactorsBefore(t, nMinPrimeSeq, nPrimes)
  {
    nMinPrimeSeq := 0;
    var nCombinedEndSeq, nPrimeCombined, nFixedFactorCombinedMod := 1, 1, 0;
    ghost var nCombinedBegin := 1;
    hide TableOk, IsPrime, Divides, DividesAll;
    var nPrimeSeqLocal := 1;
    while nPrimeSeqLocal < nPrimes
      invariant 1 <= nPrimeSeqLocal <= nPrimes && nMinPrimeSeq < nPrimeSeqLocal
      invariant 0 < nPrimeCombined && nCombinedBegin <= nPrimeSeqLocal <= nCombinedEndSeq <= |vPrimes|
      invariant nPrimeSeqLocal < nCombinedEndSeq ==> nFixedFactorCombinedMod == t.nFixed % nPrimeCombined
      invariant DividesAll(vPrimes, nCombinedBegin, nCombinedEndSeq, nPrimeCombined) || nCombinedEndSeq == nPrimeSeqLocal
      invariant TableOk(t, Minus, vMultipliers1, nSieveLayers, nPrimeSeqLocal, 0) && TableOk(t, Plus, vMultipliers2, nSieveLayers, nPrimeSeqLocal, 0)
      invariant FactorsBefore(t, nMinPrimeSeq, nPrimeSeqLocal)
    {
      var nPrime := vPrimes[nPrimeSeqLocal];
      assert OddPrime(nPrime);
      if nPrimeSeqLocal >= nCombinedEndSeq {
        nCombinedBegin := nCombinedEndSeq;
        nPrimeCombined, nCombinedEndSeq := CombinePrimes(vPrimes, nCombinedEndSeq);
        nFixedFactorCombinedMod := CombinedMod(mpzHash, mpzFixedMultiplier, nPrimeCombined);
      }
      CombinedDivides(vPrimes, nCombinedBegin, nCombinedEndSeq, nPrimeCombined, nPrimeSeqLocal);
      ModOfMod(nPrime, nPrimeCombined, t.nFixed);
      var nFixedFactorMod := nFixedFactorCombinedMod % nPrime;
      if nFixedFactorMod == 0 {
        DividesByRemainder(nPrime, t.nFixed);
        SkipColumn(t, Minus, vMultipliers1, nSieveLayers, nPrimeSeqLocal);
        SkipColumn(t, Plus, vMultipliers2, nSieveLayers, nPrimeSeqLocal);
      } else {
        if nMinPrimeSeq == 0 {
          nMinPrimeSeq := nPrimeSeqLocal;
        }
        SmallResidue(nPrime, nFixedFactorMod);
        var nFixedInverse := IntInvert(nFixedFactorMod, nPrime);
        InverseFound(nPrime, t.nFixed, nFixedFactorMod, nFixedInverse);
        StoreMultipliers(t, vMultipliers1, vMultipliers2, nSieveLayers, nPrimeSeqLocal, nPrimes, nPrime, nFixedInverse);
      }
      nPrimeSeqLocal := nPrimeSeqLocal + 1;
    }
  }

  lemma CombinedDivides(vPrimes: seq<nat>, from: nat, to: nat, c: nat, s: nat)
    requires DividesAll(vPrimes, from, to, c) && from <= s < to
    ensures Divides(vPrimes[s], c)
  {
  }

  lemma DividesByRemainder(p: nat, n: nat)
    requires p > 0 && n % p == 0
    ensures Divides(p, n)
  {
  }

  /** A full table is ready for the first chunk in every layer. */
  lemma TableRow(t: Task, sign: Sign, vMultipliers: array<nat>, nLayers: nat, k: nat, nMinPrimeSeq: nat)
    requires TaskOk(t) && 0 < t.nPrimes && TableOk(t, sign, vMultipliers, nLayers, t.nPrimes, 0) && k < nLayers
    requires nMinPrimeSeq < t.nPrimes && FactorsBefore(t, nMinPrimeSeq, t.nPrimes)
    ensures RowOk(t, sign, vMultipliers, k * t.nPrimes, k, 0) && RowStartsAt(vMultipliers, k * t.nPrimes, nMinPrimeSeq)
  {
    var base := k * t.nPrimes;
    AtInTable(k, nLayers, t.nPrimes, 0);
    AtInTable(k, nLayers, t.nPrimes, t.nPrimes - 1);
    assert CellAt(t, sign, vMultipliers, k, 0, t.nPrimes, 0);
    forall x | base < x < base + t.nPrimes
      ensures x < vMultipliers.Length && EntryOk(t, sign, k, t.vPrimes[x - base], vMultipliers[x], 0)
      ensures x - base < nMinPrimeSeq ==> vMultipliers[x] == UINT_MAX
    {
      hide EntryOk;
      var r := x - base;
      assert CellAt(t, sign, vMultipliers, k, r, t.nPrimes, 0);
      assert x == At(k, t.nPrimes, r);
      if r < nMinPrimeSeq {
        assert OddPrime(t.vPrimes[r]) && Divides(t.vPrimes[r], t.nFixed);
        FactorEntry(t, sign, k, t.vPrimes[r], vMultipliers[x]);
      }
    }
  }

  lemma FactorEntry(t: Task, sign: Sign, k: nat, p: nat, m: nat)
    requires OddPrime(p) && Divides(p, t.nFixed) && EntryOk(t, sign, k, p, m, 0)
    ensures m == UINT_MAX
  {
    assert p >= 2;
    hide Hits, Divides, OddPrime;
    if m < p {
      FixedFactorNeverHits(p, t.nFixed, sign, k, m);
      assert SameClass(p, m, m);
    }
  }
}
