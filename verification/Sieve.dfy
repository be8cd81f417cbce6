/** The sieve for prime chain candidates (prime.h and prime.cpp, CSieveOfEratosthenes). */
module Sieve {
  import opened Arithmetic
  import opened SieveBits
  import opened SieveSpec
  import opened SieveLayer
  import opened SieveArrays
  import opened SieveMultipliers
  import PrimeTable
  import Target

  const MAX_SIEVE_SIZE := 10_000_000
  const MAX_SIEVE_EXTENSIONS := 20

  /** Both tables' rows of layer k, ready for the chunk that starts at lo. */
  ghost predicate RowsOk(t: Task, vMultipliers1: array<nat>, vMultipliers2: array<nat>, k: nat, nMinPrimeSeq: nat, lo: nat)
    reads vMultipliers1, vMultipliers2
  {
    && RowOk(t, Minus, vMultipliers1, k * t.nPrimes, k, lo) && RowStartsAt(vMultipliers1, k * t.nPrimes, nMinPrimeSeq)
    && RowOk(t, Plus, vMultipliers2, k * t.nPrimes, k, lo) && RowStartsAt(vMultipliers2, k * t.nPrimes, nMinPrimeSeq)
  }

  twostate lemma RowKept(new t: Task, new sign: Sign, vMultipliers: array<nat>, new base: nat, new k: nat, new changed: nat, new nMinPrimeSeq: nat, new lo: nat)
    requires (base + t.nPrimes <= changed || changed + t.nPrimes <= base) && nMinPrimeSeq < t.nPrimes
    requires forall x | 0 <= x < vMultipliers.Length && !(changed < x < changed + t.nPrimes) :: vMultipliers[x] == old(vMultipliers[x])
    requires old(RowOk(t, sign, vMultipliers, base, k, lo)) && old(RowStartsAt(vMultipliers, base, nMinPrimeSeq))
    ensures RowOk(t, sign, vMultipliers, base, k, lo) && RowStartsAt(vMultipliers, base, nMinPrimeSeq)
  {
    hide EntryOk;
  }

  method NewLayer(nWords: nat) returns (a: array<Word>)
    ensures fresh(a) && a.Length == nWords
  {
    a := new Word[nWords](_ => ZERO);
  }

  /** A multiplier table whose every byte is 0xFF. */
  method NewTable(nLayers: nat, nPrimes: nat) returns (a: array<nat>)
    ensures fresh(a) && a.Length == nLayers * nPrimes && forall x | 0 <= x < a.Length :: a[x] == UINT_MAX
  {
    a := new nat[nLayers * nPrimes](_ => UINT_MAX);
  }

  /** The extensions' blocks of words do not overlap. */
  lemma BlocksApart(e: nat, f: nat, nWords: nat)
    requires e != f
    ensures e * nWords + nWords <= f * nWords || f * nWords + nWords <= e * nWords
  {
    if e < f { MulMono(nWords, e + 1, f); } else { MulMono(nWords, f + 1, e); }
  }

  class CSieveOfEratosthenes {
    const vPrimes: seq<nat>
    const nSieveSize: nat
    const nSieveExtensions: nat
    const nL1CacheElements: nat
    const mpzHash: nat
    const mpzFixedMultiplier: nat
    const nChainLength: nat
    const nSieveLayers: nat
    const nPrimes: nat
    const nCandidatesWords: nat
    const primary: BitArrays
    const extended: BitArrays
    const vfCompositeLayerCC1: array<Word>
    const vfCompositeLayerCC2: array<Word>
    const vCunningham1Multipliers: array<nat>
    const vCunningham2Multipliers: array<nat>

    var nMinPrimeSeq: nat
    var nPrimeSeq: nat
    var nCandidateMultiplier: nat
    var nCandidateIndex: nat
    var fCandidateIsExtended: bool
    var nCandidateActiveExtension: nat
    var fIsDepleted: bool

    ghost function T(): Task {
      Task(vPrimes, nPrimes, mpzHash * mpzFixedMultiplier, nChainLength)
    }

    function ExtBase(e: nat): nat {
      e * nCandidatesWords
    }

    /** What Reset sets up: buffers of the right sizes that do not overlap. */
    ghost predicate Shape() {
      && TaskOk(T()) && TableLongEnough(vPrimes) && 0 < nPrimes
      && nSieveLayers == nChainLength + nSieveExtensions
      && nSieveSize <= MAX_SIEVE_SIZE && nCandidatesWords == WordsUpTo(nSieveSize)
      && nSieveExtensions <= MAX_SIEVE_EXTENSIONS
      && 0 < nL1CacheElements && nL1CacheElements % WORD_BITS == 0
      && primary.Valid() && primary.nWords == nCandidatesWords
      && extended.Valid() && extended.nWords == nSieveExtensions * nCandidatesWords
      && vfCompositeLayerCC1.Length == vfCompositeLayerCC2.Length == nCandidatesWords
      && vfCompositeLayerCC1 != vfCompositeLayerCC2
      && {vfCompositeLayerCC1, vfCompositeLayerCC2} !! primary.All() !! extended.All()
      && vCunningham1Multipliers != vCunningham2Multipliers
    }

    /** A chunk is a run of whole words, but for the last one's end. */
    ghost predicate Chunk(lo: nat, hi: nat) {
      lo % WORD_BITS == 0 && lo <= hi <= nSieveSize && (hi % WORD_BITS == 0 || hi == nSieveSize)
    }

    lemma ChunkInArrays(lo: nat, hi: nat)
      requires Shape() && Chunk(lo, hi)
      ensures hi <= WORD_BITS * nCandidatesWords && hi <= MAX_SIEVE_SIZE && WordsUpTo(hi) <= nCandidatesWords
    {
    }

    lemma ExtensionFits(e: nat)
      requires e < nSieveExtensions
      ensures ExtBase(e) + nCandidatesWords <= nSieveExtensions * nCandidatesWords
    {
      MulMono(nCandidatesWords, e + 1, nSieveExtensions);
    }

    /** The words of a chunk that one extension changes are no other's, and not before or
        after the chunk. */
    lemma OtherWords(e: nat, f: nat, lo: nat, hi: nat)
      requires Shape() && Chunk(lo, hi)
      ensures e != f ==> Outside(ExtBase(f), lo, hi, ExtBase(e) + lo / WORD_BITS, ExtBase(e) + WordsUpTo(hi))
      ensures e != f ==> Outside(ExtBase(f), 0, hi, ExtBase(e) + lo / WORD_BITS, ExtBase(e) + WordsUpTo(hi))
      ensures Outside(ExtBase(f), 0, lo, ExtBase(e) + lo / WORD_BITS, ExtBase(e) + WordsUpTo(hi))
      ensures Outside(ExtBase(f), hi, nSieveSize, ExtBase(e) + lo / WORD_BITS, ExtBase(e) + WordsUpTo(hi))
    {
      if e != f { BlocksApart(e, f, nCandidatesWords); }
    }

    /** Extension f: done before lo, at layer L in the chunk, untouched after it. */
    ghost predicate ExtensionAt(f: nat, L: nat, lo: nat, hi: nat)
      reads extended.All()
    {
      && DoneOk(T(), extended, ExtBase(f), f + 1, 0, lo)
      && LayersOk(T(), extended, ExtBase(f), f + 1, L, lo, hi)
      && LayersOk(T(), extended, ExtBase(f), f + 1, 0, hi, nSieveSize)
    }

    /** An extension keeps what lies before and after the chunk. */
    twostate lemma BeforeKept(new e: nat, new f: nat, new lo: nat, new hi: nat)
      requires Shape() && Chunk(lo, hi) && CompositesKept(extended, ExtBase(e) + lo / WORD_BITS, ExtBase(e) + WordsUpTo(hi)) && CandidatesKept(extended, ExtBase(e) + lo / WORD_BITS, ExtBase(e) + WordsUpTo(hi))
      requires old(DoneOk(T(), extended, ExtBase(f), f + 1, 0, lo))
      ensures DoneOk(T(), extended, ExtBase(f), f + 1, 0, lo)
    {
      OtherWords(e, f, lo, hi);
      hide LayersOk, DoneOk, TaskOk, TableLongEnough, CSieveOfEratosthenes.ExtBase, Outside, WordsUpTo;
      var t, base, from, to := T(), ExtBase(f), ExtBase(e) + lo / WORD_BITS, ExtBase(e) + WordsUpTo(hi);
      DoneKept(t, extended, base, f + 1, 0, lo, from, to);
    }

    twostate lemma AfterKept(new e: nat, new f: nat, new lo: nat, new hi: nat)
      requires Shape() && Chunk(lo, hi) && CompositesKept(extended, ExtBase(e) + lo / WORD_BITS, ExtBase(e) + WordsUpTo(hi)) && CandidatesKept(extended, ExtBase(e) + lo / WORD_BITS, ExtBase(e) + WordsUpTo(hi))
      requires old(LayersOk(T(), extended, ExtBase(f), f + 1, 0, hi, nSieveSize))
      ensures LayersOk(T(), extended, ExtBase(f), f + 1, 0, hi, nSieveSize)
    {
      OtherWords(e, f, lo, hi);
      hide LayersOk, DoneOk, TaskOk, TableLongEnough, CSieveOfEratosthenes.ExtBase, Outside, WordsUpTo;
      LayersKept(T(), extended, ExtBase(f), f + 1, 0, hi, nSieveSize, ExtBase(e) + lo / WORD_BITS, ExtBase(e) + WordsUpTo(hi));
    }

    twostate lemma ExtensionKept(new e: nat, new f: nat, new L: nat, new lo: nat, new hi: nat)
      requires Shape() && Chunk(lo, hi) && CompositesKept(extended, ExtBase(e) + lo / WORD_BITS, ExtBase(e) + WordsUpTo(hi)) && CandidatesKept(extended, ExtBase(e) + lo / WORD_BITS, ExtBase(e) + WordsUpTo(hi)) && e != f
      requires old(ExtensionAt(f, L, lo, hi))
      ensures ExtensionAt(f, L, lo, hi)
    {
      BeforeKept(e, f, lo, hi);
      AfterKept(e, f, lo, hi);
      OtherWords(e, f, lo, hi);
      hide LayersOk, DoneOk, TaskOk, TableLongEnough, CSieveOfEratosthenes.ExtBase, Outside, WordsUpTo;
      LayersKept(T(), extended, ExtBase(f), f + 1, L, lo, hi, ExtBase(e) + lo / WORD_BITS, ExtBase(e) + WordsUpTo(hi));
    }

    method ApplyExtension(e: nat, nLayerSeq: nat, nMinMultiplier: nat, nMaxMultiplier: nat)
      requires Shape() && Chunk(nMinMultiplier, nMaxMultiplier) && e < nSieveExtensions
      requires LayerHolds(T(), vfCompositeLayerCC1, vfCompositeLayerCC2, nLayerSeq, nMinMultiplier, nMaxMultiplier)
      requires ExtensionAt(e, nLayerSeq, nMinMultiplier, nMaxMultiplier)
      modifies extended.vfCompositeCC1, extended.vfCompositeCC2, extended.vfCompositeBiTwin
      ensures ExtensionAt(e, nLayerSeq + 1, nMinMultiplier, nMaxMultiplier)
      ensures CompositesKept(extended, ExtBase(e) + nMinMultiplier / WORD_BITS, ExtBase(e) + WordsUpTo(nMaxMultiplier))
    {
      ChunkInArrays(nMinMultiplier, nMaxMultiplier);
      ExtensionFits(e);
      hide LayersOk, DoneOk, LayerHolds, TaskOk, TableLongEnough, CSieveOfEratosthenes.ExtBase;
      ApplyLayerTo(T(), nChainLength, extended, ExtBase(e), e + 1, nLayerSeq, nMinMultiplier, nMaxMultiplier,
                   vfCompositeLayerCC1, vfCompositeLayerCC2);
      BeforeKept(e, e, nMinMultiplier, nMaxMultiplier);
      AfterKept(e, e, nMinMultiplier, nMaxMultiplier);
    }

    ghost predicate ExtensionsAt(from: nat, to: nat, L: nat, lo: nat, hi: nat)
      reads extended.All()
    {
      forall f: nat | from <= f < to :: ExtensionAt(f, L, lo, hi)
    }

    /** One step of the loop over the extensions. */
    method ApplyNextExtension(e: nat, nLayerSeq: nat, nMinMultiplier: nat, nMaxMultiplier: nat)
      requires Shape() && Chunk(nMinMultiplier, nMaxMultiplier) && e < nSieveExtensions
      requires LayerHolds(T(), vfCompositeLayerCC1, vfCompositeLayerCC2, nLayerSeq, nMinMultiplier, nMaxMultiplier)
      requires ExtensionsAt(0, e, nLayerSeq + 1, nMinMultiplier, nMaxMultiplier)
      requires ExtensionsAt(e, nSieveExtensions, nLayerSeq, nMinMultiplier, nMaxMultiplier)
      modifies extended.vfCompositeCC1, extended.vfCompositeCC2, extended.vfCompositeBiTwin
      ensures ExtensionsAt(0, e + 1, nLayerSeq + 1, nMinMultiplier, nMaxMultiplier)
      ensures ExtensionsAt(e + 1, nSieveExtensions, nLayerSeq, nMinMultiplier, nMaxMultiplier)
    {
      ghost var L, L1 := nLayerSeq, nLayerSeq + 1;
      hide LayersOk, DoneOk, LayerHolds, TaskOk, TableLongEnough, CSieveOfEratosthenes.ExtBase, CSieveOfEratosthenes.Chunk, CSieveOfEratosthenes.ExtensionAt;
      ApplyExtension(e, nLayerSeq, nMinMultiplier, nMaxMultiplier);
      forall f: nat | f < e ensures ExtensionAt(f, L1, nMinMultiplier, nMaxMultiplier) {
        ExtensionKept(e, f, L1, nMinMultiplier, nMaxMultiplier);
      }
      forall f: nat | e < f < nSieveExtensions ensures ExtensionAt(f, L, nMinMultiplier, nMaxMultiplier) {
        ExtensionKept(e, f, L, nMinMultiplier, nMaxMultiplier);
      }
    }

    /** Applies layer L to every extension that uses it. */
    method ApplyToExtensions(nLayerSeq: nat, nMinMultiplier: nat, nMaxMultiplier: nat)
      requires Shape() && Chunk(nMinMultiplier, nMaxMultiplier)
      requires LayerHolds(T(), vfCompositeLayerCC1, vfCompositeLayerCC2, nLayerSeq, nMinMultiplier, nMaxMultiplier)
      requires ExtensionsAt(0, nSieveExtensions, nLayerSeq, nMinMultiplier, nMaxMultiplier)
      modifies extended.vfCompositeCC1, extended.vfCompositeCC2, extended.vfCompositeBiTwin
      ensures ExtensionsAt(0, nSieveExtensions, nLayerSeq + 1, nMinMultiplier, nMaxMultiplier)
    {
      hide LayerHolds, TaskOk, TableLongEnough, CSieveOfEratosthenes.Chunk, CSieveOfEratosthenes.ExtensionAt;
      for nExtensionSeq := 0 to nSieveExtensions
        invariant ExtensionsAt(0, nExtensionSeq, nLayerSeq + 1, nMinMultiplier, nMaxMultiplier)
        invariant ExtensionsAt(nExtensionSeq, nSieveExtensions, nLayerSeq, nMinMultiplier, nMaxMultiplier)
      {
        ApplyNextExtension(nExtensionSeq, nLayerSeq, nMinMultiplier, nMaxMultiplier);
      }
    }

    // ---------- Reset ----------

    /** Reset: everything cleared, both tables empty. */
    constructor (vPrimes: seq<nat>, nSieveSize: nat, nSieveFilterPrimes: nat, nSieveExtensions: nat, nL1CacheSize: nat,
                 nBits: nat, mpzHash: nat, mpzFixedMultiplier: nat, nSieveTargetLength: int)
      requires 0 < nSieveFilterPrimes < |vPrimes| && TableLongEnough(vPrimes)
      requires forall s | 1 <= s < |vPrimes| :: OddPrime(vPrimes[s])
      requires nSieveSize <= MAX_SIEVE_SIZE && nSieveExtensions <= MAX_SIEVE_EXTENSIONS && 0 < nL1CacheSize && nL1CacheSize % 8 == 0
      ensures Shape() && Blank() && !fIsDepleted
      ensures fresh(primary.All()) && fresh(extended.All()) && fresh(vfCompositeLayerCC1) && fresh(vfCompositeLayerCC2)
      ensures fresh(vCunningham1Multipliers) && fresh(vCunningham2Multipliers)
      ensures T() == Task(vPrimes, nSieveFilterPrimes, mpzHash * mpzFixedMultiplier,
                          if nSieveTargetLength > 0 then nSieveTargetLength else Target.TargetGetLength(nBits))
      ensures this.nSieveSize == nSieveSize && this.nSieveExtensions == nSieveExtensions
      ensures !fCandidateIsExtended && nCandidateIndex == 0 && nCandidateActiveExtension == 0
    {
      hide Bit, OddPrime, TableLongEnough, Target.TargetGetLength;
      this.vPrimes, this.nSieveSize, this.nSieveExtensions := vPrimes, nSieveSize, nSieveExtensions;
      nL1CacheElements := nL1CacheSize * 8;
      this.mpzHash, this.mpzFixedMultiplier := mpzHash, mpzFixedMultiplier;
      var length := if nSieveTargetLength > 0 then nSieveTargetLength else Target.TargetGetLength(nBits);
      nChainLength := length;
      nSieveLayers := length + nSieveExtensions;
      nPrimes := nSieveFilterPrimes;
      var nWords := WordsUpTo(nSieveSize);
      nCandidatesWords := nWords;
      primary := new BitArrays(nWords);
      extended := new BitArrays(nSieveExtensions * nWords);
      var layer1 := NewLayer(nWords);
      var layer2 := NewLayer(nWords);
      vfCompositeLayerCC1, vfCompositeLayerCC2 := layer1, layer2;
      var table1 := NewTable(length + nSieveExtensions, nSieveFilterPrimes);
      var table2 := NewTable(length + nSieveExtensions, nSieveFilterPrimes);
      vCunningham1Multipliers, vCunningham2Multipliers := table1, table2;
      nMinPrimeSeq, nPrimeSeq, nCandidateMultiplier, nCandidateIndex := 0, 0, 0, 0;
      fCandidateIsExtended, nCandidateActiveExtension, fIsDepleted := false, 0, false;
    }

    ghost predicate Blank()
      reads this, primary.All(), extended.All(), vCunningham1Multipliers, vCunningham2Multipliers
    {
      && (forall i: nat :: !Bit(primary.vfCompositeCC1, 0, i) && !Bit(primary.vfCompositeCC2, 0, i) && !Bit(primary.vfCompositeBiTwin, 0, i))
      && (forall base: nat, i: nat :: !Bit(extended.vfCompositeCC1, base, i) && !Bit(extended.vfCompositeCC2, base, i) && !Bit(extended.vfCompositeBiTwin, base, i))
      && vCunningham1Multipliers.Length == nSieveLayers * nPrimes == vCunningham2Multipliers.Length
      && (forall x | 0 <= x < vCunningham1Multipliers.Length :: vCunningham1Multipliers[x] == UINT_MAX)
      && (forall x | 0 <= x < vCunningham2Multipliers.Length :: vCunningham2Multipliers[x] == UINT_MAX)
    }

    // ---------- Weave ----------

    ghost predicate RowsReady(from: nat, to: nat, lo: nat)
      reads this`nMinPrimeSeq, vCunningham1Multipliers, vCunningham2Multipliers
    {
      nMinPrimeSeq < nPrimes && forall k: nat | from <= k < to :: RowsOk(T(), vCunningham1Multipliers, vCunningham2Multipliers, k, nMinPrimeSeq, lo)
    }

    /** The base sieve, as ExtensionAt says for an extension. */
    ghost predicate PrimaryAt(L: nat, lo: nat, hi: nat)
      reads primary.All()
    {
      && DoneOk(T(), primary, 0, 0, 0, lo)
      && LayersOk(T(), primary, 0, 0, L, lo, hi)
      && LayersOk(T(), primary, 0, 0, 0, hi, nSieveSize)
    }

    /** Fills the layer arrays and moves the layer's multipliers past the chunk. */
    method ProcessLayer(nLayerSeq: nat, nMinMultiplier: nat, nMaxMultiplier: nat)
      requires Shape() && Chunk(nMinMultiplier, nMaxMultiplier) && nLayerSeq < nSieveLayers
      requires RowsReady(0, nLayerSeq, nMaxMultiplier) && RowsReady(nLayerSeq, nSieveLayers, nMinMultiplier)
      modifies vfCompositeLayerCC1, vfCompositeLayerCC2, vCunningham1Multipliers, vCunningham2Multipliers
      ensures RowsReady(0, nLayerSeq + 1, nMaxMultiplier) && RowsReady(nLayerSeq + 1, nSieveLayers, nMinMultiplier)
      ensures LayerHolds(T(), vfCompositeLayerCC1, vfCompositeLayerCC2, nLayerSeq, nMinMultiplier, nMaxMultiplier)
    {
      ChunkInArrays(nMinMultiplier, nMaxMultiplier);
      hide RowOk, RowStartsAt, TaskOk, TableLongEnough, Struck, Bit;
      assert RowsOk(T(), vCunningham1Multipliers, vCunningham2Multipliers, nLayerSeq, nMinPrimeSeq, nMinMultiplier);
      ProcessMultiplier(T(), Minus, vfCompositeLayerCC1, nMinMultiplier, nMaxMultiplier, vCunningham1Multipliers, nLayerSeq,
                        vPrimes, nPrimes, nMinPrimeSeq);
      ProcessMultiplier(T(), Plus, vfCompositeLayerCC2, nMinMultiplier, nMaxMultiplier, vCunningham2Multipliers, nLayerSeq,
                        vPrimes, nPrimes, nMinPrimeSeq);
      forall k: nat | k < nLayerSeq + 1 ensures RowsOk(T(), vCunningham1Multipliers, vCunningham2Multipliers, k, nMinPrimeSeq, nMaxMultiplier) {
        if k < nLayerSeq { LayerRowsKept(k, nLayerSeq, nMaxMultiplier); }
      }
      forall k: nat | nLayerSeq < k < nSieveLayers ensures RowsOk(T(), vCunningham1Multipliers, vCunningham2Multipliers, k, nMinPrimeSeq, nMinMultiplier) {
        LayerRowsKept(k, nLayerSeq, nMinMultiplier);
      }
    }

    /** Another layer's rows are untouched. */
    twostate lemma LayerRowsKept(new k: nat, new changed: nat, new lo: nat)
      requires k != changed && nMinPrimeSeq == old(nMinPrimeSeq) && nMinPrimeSeq < nPrimes
      requires forall x | 0 <= x < vCunningham1Multipliers.Length && !(changed * nPrimes < x < changed * nPrimes + nPrimes) ::
                 vCunningham1Multipliers[x] == old(vCunningham1Multipliers[x])
      requires forall x | 0 <= x < vCunningham2Multipliers.Length && !(changed * nPrimes < x < changed * nPrimes + nPrimes) ::
                 vCunningham2Multipliers[x] == old(vCunningham2Multipliers[x])
      requires old(RowsOk(T(), vCunningham1Multipliers, vCunningham2Multipliers, k, nMinPrimeSeq, lo))
      ensures RowsOk(T(), vCunningham1Multipliers, vCunningham2Multipliers, k, nMinPrimeSeq, lo)
    {
      hide RowOk, RowStartsAt;
      BlocksApart(k, changed, nPrimes);
      RowKept(T(), Minus, vCunningham1Multipliers, k * nPrimes, k, changed * nPrimes, nMinPrimeSeq, lo);
      RowKept(T(), Plus, vCunningham2Multipliers, k * nPrimes, k, changed * nPrimes, nMinPrimeSeq, lo);
    }

    /** One layer of one chunk. */
    method WeaveLayer(nLayerSeq: nat, nMinMultiplier: nat, nMaxMultiplier: nat)
      requires Shape() && Chunk(nMinMultiplier, nMaxMultiplier) && nLayerSeq < nSieveLayers
      requires RowsReady(0, nLayerSeq, nMaxMultiplier) && RowsReady(nLayerSeq, nSieveLayers, nMinMultiplier)
      requires PrimaryAt(nLayerSeq, nMinMultiplier, nMaxMultiplier)
      requires ExtensionsAt(0, nSieveExtensions, nLayerSeq, nMinMultiplier, nMaxMultiplier)
      modifies vfCompositeLayerCC1, vfCompositeLayerCC2, vCunningham1Multipliers, vCunningham2Multipliers
      modifies primary.vfCompositeCC1, primary.vfCompositeCC2, primary.vfCompositeBiTwin
      modifies extended.vfCompositeCC1, extended.vfCompositeCC2, extended.vfCompositeBiTwin
      ensures RowsReady(0, nLayerSeq + 1, nMaxMultiplier) && RowsReady(nLayerSeq + 1, nSieveLayers, nMinMultiplier)
      ensures PrimaryAt(nLayerSeq + 1, nMinMultiplier, nMaxMultiplier)
      ensures ExtensionsAt(0, nSieveExtensions, nLayerSeq + 1, nMinMultiplier, nMaxMultiplier)
    {
      hide CSieveOfEratosthenes.Chunk, CSieveOfEratosthenes.RowsReady, CSieveOfEratosthenes.ExtensionsAt, CSieveOfEratosthenes.PrimaryAt, LayerHolds, TaskOk, TableLongEnough;
      ProcessLayer(nLayerSeq, nMinMultiplier, nMaxMultiplier);
      ApplyToPrimary(nLayerSeq, nMinMultiplier, nMaxMultiplier);
      ApplyToExtensions(nLayerSeq, nMinMultiplier, nMaxMultiplier);
    }

    method ApplyToPrimary(nLayerSeq: nat, nMinMultiplier: nat, nMaxMultiplier: nat)
      requires Shape() && Chunk(nMinMultiplier, nMaxMultiplier)
      requires LayerHolds(T(), vfCompositeLayerCC1, vfCompositeLayerCC2, nLayerSeq, nMinMultiplier, nMaxMultiplier)
      requires PrimaryAt(nLayerSeq, nMinMultiplier, nMaxMultiplier)
      modifies primary.vfCompositeCC1, primary.vfCompositeCC2, primary.vfCompositeBiTwin
      ensures PrimaryAt(nLayerSeq + 1, nMinMultiplier, nMaxMultiplier)
    {
      ChunkInArrays(nMinMultiplier, nMaxMultiplier);
      hide LayersOk, DoneOk, LayerHolds, TaskOk, TableLongEnough;
      ApplyLayerTo(T(), nChainLength, primary, 0, 0, nLayerSeq, nMinMultiplier, nMaxMultiplier, vfCompositeLayerCC1, vfCompositeLayerCC2);
      LayersKept(T(), primary, 0, 0, 0, nMaxMultiplier, nSieveSize, nMinMultiplier / WORD_BITS, WordsUpTo(nMaxMultiplier));
      DoneKept(T(), primary, 0, 0, 0, nMinMultiplier, nMinMultiplier / WORD_BITS, WordsUpTo(nMaxMultiplier));
    }

    /** All layers are in: the candidates of the chunk. */
    method CombinePrimary(nMinMultiplier: nat, nMaxMultiplier: nat)
      requires Shape() && Chunk(nMinMultiplier, nMaxMultiplier) && PrimaryAt(nSieveLayers, nMinMultiplier, nMaxMultiplier)
      modifies primary.vfCandidates
      ensures DoneOk(T(), primary, 0, 0, 0, nMaxMultiplier) && LayersOk(T(), primary, 0, 0, 0, nMaxMultiplier, nSieveSize)
    {
      ChunkInArrays(nMinMultiplier, nMaxMultiplier);
      hide LayersOk, DoneOk, TaskOk, TableLongEnough;
      CombineTo(T(), primary, 0, 0, nSieveLayers, nMinMultiplier, nMaxMultiplier, nCandidatesWords);
      DoneKept(T(), primary, 0, 0, 0, nMinMultiplier, nMinMultiplier / WORD_BITS, WordsUpTo(nMaxMultiplier));
      DoneJoins(T(), primary, 0, 0, nMinMultiplier, nMaxMultiplier);
    }

    /** Extension f is done up to hi and untouched after it. */
    ghost predicate ExtensionDone(f: nat, hi: nat)
      reads extended.All()
    {
      DoneOk(T(), extended, ExtBase(f), f + 1, 0, hi) && LayersOk(T(), extended, ExtBase(f), f + 1, 0, hi, nSieveSize)
    }

    ghost predicate ExtensionsDone(from: nat, to: nat, hi: nat)
      reads extended.All()
    {
      forall f: nat | from <= f < to :: ExtensionDone(f, hi)
    }

    method CombineExtension(e: nat, nMinMultiplier: nat, nMaxMultiplier: nat)
      requires Shape() && Chunk(nMinMultiplier, nMaxMultiplier) && e < nSieveExtensions
      requires ExtensionAt(e, nSieveLayers, nMinMultiplier, nMaxMultiplier)
      modifies extended.vfCandidates
      ensures ExtensionDone(e, nMaxMultiplier)
      ensures CandidatesKept(extended, ExtBase(e) + nMinMultiplier / WORD_BITS, ExtBase(e) + WordsUpTo(nMaxMultiplier))
    {
      ChunkInArrays(nMinMultiplier, nMaxMultiplier);
      ExtensionFits(e);
      hide LayersOk, DoneOk, TaskOk, TableLongEnough, CSieveOfEratosthenes.ExtBase;
      CombineTo(T(), extended, ExtBase(e), e + 1, nSieveLayers, nMinMultiplier, nMaxMultiplier, nCandidatesWords);
      BeforeKept(e, e, nMinMultiplier, nMaxMultiplier);
      DoneJoins(T(), extended, ExtBase(e), e + 1, nMinMultiplier, nMaxMultiplier);
    }

    twostate lemma DoneExtensionKept(new e: nat, new f: nat, new lo: nat, new hi: nat)
      requires Shape() && Chunk(lo, hi) && e != f
      requires CandidatesKept(extended, ExtBase(e) + lo / WORD_BITS, ExtBase(e) + WordsUpTo(hi)) && unchanged(extended.Composites())
      requires old(ExtensionDone(f, hi))
      ensures ExtensionDone(f, hi)
    {
      OtherWords(e, f, lo, hi);
      hide LayersOk, DoneOk, TaskOk, TableLongEnough, CSieveOfEratosthenes.ExtBase, Outside, WordsUpTo;
      DoneKept(T(), extended, ExtBase(f), f + 1, 0, hi, ExtBase(e) + lo / WORD_BITS, ExtBase(e) + WordsUpTo(hi));
    }

    method CombineNextExtension(e: nat, nMinMultiplier: nat, nMaxMultiplier: nat)
      requires Shape() && Chunk(nMinMultiplier, nMaxMultiplier) && e < nSieveExtensions
      requires ExtensionsDone(0, e, nMaxMultiplier) && ExtensionsAt(e, nSieveExtensions, nSieveLayers, nMinMultiplier, nMaxMultiplier)
      modifies extended.vfCandidates
      ensures ExtensionsDone(0, e + 1, nMaxMultiplier)
      ensures ExtensionsAt(e + 1, nSieveExtensions, nSieveLayers, nMinMultiplier, nMaxMultiplier)
    {
      ghost var L := nSieveLayers;
      hide LayersOk, DoneOk, TaskOk, TableLongEnough, CSieveOfEratosthenes.ExtBase, CSieveOfEratosthenes.Chunk, CSieveOfEratosthenes.ExtensionAt, CSieveOfEratosthenes.ExtensionDone;
      CombineExtension(e, nMinMultiplier, nMaxMultiplier);
      forall f: nat | f < e ensures ExtensionDone(f, nMaxMultiplier) {
        DoneExtensionKept(e, f, nMinMultiplier, nMaxMultiplier);
      }
      forall f: nat | e < f < nSieveExtensions ensures ExtensionAt(f, L, nMinMultiplier, nMaxMultiplier) {
        ExtensionKept(e, f, L, nMinMultiplier, nMaxMultiplier);
      }
    }

    method CombineExtensions(nMinMultiplier: nat, nMaxMultiplier: nat)
      requires Shape() && Chunk(nMinMultiplier, nMaxMultiplier)
      requires ExtensionsAt(0, nSieveExtensions, nSieveLayers, nMinMultiplier, nMaxMultiplier)
      modifies extended.vfCandidates
      ensures ExtensionsDone(0, nSieveExtensions, nMaxMultiplier)
    {
      hide TaskOk, TableLongEnough, CSieveOfEratosthenes.Chunk, CSieveOfEratosthenes.ExtensionAt, CSieveOfEratosthenes.ExtensionDone;
      for j := 0 to nSieveExtensions
        invariant ExtensionsDone(0, j, nMaxMultiplier)
        invariant ExtensionsAt(j, nSieveExtensions, nSieveLayers, nMinMultiplier, nMaxMultiplier)
      {
        CombineNextExtension(j, nMinMultiplier, nMaxMultiplier);
      }
    }

    /** The sieve is done up to lo and untouched after it. */
    ghost predicate DoneUpTo(lo: nat)
      reads primary.All(), extended.All()
    {
      && DoneOk(T(), primary, 0, 0, 0, lo) && LayersOk(T(), primary, 0, 0, 0, lo, nSieveSize)
      && ExtensionsDone(0, nSieveExtensions, lo)
    }

    lemma StartChunk(lo: nat, hi: nat)
      requires DoneUpTo(lo) && lo <= hi <= nSieveSize
      ensures PrimaryAt(0, lo, hi) && ExtensionsAt(0, nSieveExtensions, 0, lo, hi)
    {
      SplitLayers(T(), primary, 0, 0, lo, hi, nSieveSize);
      hide DoneOk, LayersOk, CSieveOfEratosthenes.ExtBase;
      forall f: nat | f < nSieveExtensions ensures ExtensionAt(f, 0, lo, hi) {
        assert ExtensionDone(f, lo);
        SplitLayers(T(), extended, ExtBase(f), f + 1, lo, hi, nSieveSize);
      }
    }

    /** All layers of one chunk, in order. */
    method WeaveLayers(nMinMultiplier: nat, nMaxMultiplier: nat)
      requires Shape() && Chunk(nMinMultiplier, nMaxMultiplier)
      requires RowsReady(0, nSieveLayers, nMinMultiplier)
      requires PrimaryAt(0, nMinMultiplier, nMaxMultiplier) && ExtensionsAt(0, nSieveExtensions, 0, nMinMultiplier, nMaxMultiplier)
      modifies vfCompositeLayerCC1, vfCompositeLayerCC2, vCunningham1Multipliers, vCunningham2Multipliers
      modifies primary.vfCompositeCC1, primary.vfCompositeCC2, primary.vfCompositeBiTwin
      modifies extended.vfCompositeCC1, extended.vfCompositeCC2, extended.vfCompositeBiTwin
      ensures RowsReady(0, nSieveLayers, nMaxMultiplier)
      ensures PrimaryAt(nSieveLayers, nMinMultiplier, nMaxMultiplier)
      ensures ExtensionsAt(0, nSieveExtensions, nSieveLayers, nMinMultiplier, nMaxMultiplier)
    {
      NoRows(nMinMultiplier, nMaxMultiplier);
      hide *;
      for nLayerSeq := 0 to nSieveLayers
        invariant RowsReady(0, nLayerSeq, nMaxMultiplier) && RowsReady(nLayerSeq, nSieveLayers, nMinMultiplier)
        invariant PrimaryAt(nLayerSeq, nMinMultiplier, nMaxMultiplier)
        invariant ExtensionsAt(0, nSieveExtensions, nLayerSeq, nMinMultiplier, nMaxMultiplier)
      {
        WeaveLayer(nLayerSeq, nMinMultiplier, nMaxMultiplier);
      }
    }

    /** Weave's chunk loop body. */
    method WeaveChunk(nMinMultiplier: nat, nMaxMultiplier: nat)
      requires Shape() && Chunk(nMinMultiplier, nMaxMultiplier)
      requires RowsReady(0, nSieveLayers, nMinMultiplier) && DoneUpTo(nMinMultiplier)
      modifies vfCompositeLayerCC1, vfCompositeLayerCC2, vCunningham1Multipliers, vCunningham2Multipliers
      modifies primary.vfCandidates, primary.vfCompositeCC1, primary.vfCompositeCC2, primary.vfCompositeBiTwin
      modifies extended.vfCandidates, extended.vfCompositeCC1, extended.vfCompositeCC2, extended.vfCompositeBiTwin
      ensures RowsReady(0, nSieveLayers, nMaxMultiplier) && DoneUpTo(nMaxMultiplier)
    {
      StartChunk(nMinMultiplier, nMaxMultiplier);
      hide CSieveOfEratosthenes.Chunk, CSieveOfEratosthenes.RowsReady, CSieveOfEratosthenes.ExtensionsAt, CSieveOfEratosthenes.PrimaryAt, CSieveOfEratosthenes.ExtensionsDone, DoneOk, LayersOk, TaskOk, TableLongEnough;
      WeaveLayers(nMinMultiplier, nMaxMultiplier);
      CombinePrimary(nMinMultiplier, nMaxMultiplier);
      CombineExtensions(nMinMultiplier, nMaxMultiplier);
    }

    lemma NoRows(at: nat, lo: nat)
      requires RowsReady(0, nSieveLayers, at)
      ensures RowsReady(0, 0, lo)
    {
    }

    lemma TablesReady()
      requires Shape() && nMinPrimeSeq < nPrimes && FactorsBefore(T(), nMinPrimeSeq, nPrimes)
      requires TableOk(T(), Minus, vCunningham1Multipliers, nSieveLayers, nPrimes, 0)
      requires TableOk(T(), Plus, vCunningham2Multipliers, nSieveLayers, nPrimes, 0)
      ensures RowsReady(0, nSieveLayers, 0)
    {
      hide TableOk, RowOk, RowStartsAt, TaskOk, FactorsBefore, TableLongEnough;
      forall k: nat | k < nSieveLayers ensures RowsOk(T(), vCunningham1Multipliers, vCunningham2Multipliers, k, nMinPrimeSeq, 0) {
        TableRow(T(), Minus, vCunningham1Multipliers, nSieveLayers, k, nMinPrimeSeq);
        TableRow(T(), Plus, vCunningham2Multipliers, nSieveLayers, k, nMinPrimeSeq);
      }
    }

    lemma BlankTables()
      requires Shape() && Blank()
      ensures TableOk(T(), Minus, vCunningham1Multipliers, nSieveLayers, 1, 0)
      ensures TableOk(T(), Plus, vCunningham2Multipliers, nSieveLayers, 1, 0)
    {
      EmptyTable(T(), Minus, vCunningham1Multipliers, nSieveLayers);
      EmptyTable(T(), Plus, vCunningham2Multipliers, nSieveLayers);
    }

    lemma BlankArrays()
      requires Blank()
      ensures DoneUpTo(0)
    {
      hide Bit;
      BlankLayers(T(), primary, 0, 0, nSieveSize);
      forall f: nat | f < nSieveExtensions ensures ExtensionDone(f, 0) {
        BlankLayers(T(), extended, ExtBase(f), f + 1, nSieveSize);
      }
    }

    /** Weave's prime loop. */
    method PrepareTables()
      requires Shape() && Blank()
      modifies this`nMinPrimeSeq, vCunningham1Multipliers, vCunningham2Multipliers
      ensures RowsReady(0, nSieveLayers, 0)
    {
      BlankTables();
      hide CSieveOfEratosthenes.RowsReady, TableOk, FactorsBefore, CSieveOfEratosthenes.Blank, OddPrime;
      nMinPrimeSeq := ComputeMultipliers(T(), vPrimes, nPrimes, mpzHash, mpzFixedMultiplier,
                                         vCunningham1Multipliers, vCunningham2Multipliers, nSieveLayers);
      TablesReady();
    }

    /** Weave, when no new block interrupts it: every bit of every array is right. */
    method Weave()
      requires Shape() && Blank()
      modifies this`nMinPrimeSeq, this`nPrimeSeq
      modifies vfCompositeLayerCC1, vfCompositeLayerCC2, vCunningham1Multipliers, vCunningham2Multipliers
      modifies primary.vfCandidates, primary.vfCompositeCC1, primary.vfCompositeCC2, primary.vfCompositeBiTwin
      modifies extended.vfCandidates, extended.vfCompositeCC1, extended.vfCompositeCC2, extended.vfCompositeBiTwin
      ensures DoneUpTo(nSieveSize)
    {
      hide CSieveOfEratosthenes.RowsReady, CSieveOfEratosthenes.DoneUpTo, CSieveOfEratosthenes.Blank;
      BlankArrays();
      PrepareTables();
      var nArrayRounds := (nSieveSize + nL1CacheElements - 1) / nL1CacheElements;
      RoundsCover(0);
      RoundsEnd(nArrayRounds);
      hide *;
      for j := 0 to nArrayRounds
        invariant RowsReady(0, nSieveLayers, ChunkStart(j)) && DoneUpTo(ChunkStart(j))
      {
        WeaveRound(j);
      }
      nPrimeSeq := nPrimes - 1;
    }

    method WeaveRound(j: nat)
      requires Shape() && j < (nSieveSize + nL1CacheElements - 1) / nL1CacheElements
      requires RowsReady(0, nSieveLayers, ChunkStart(j)) && DoneUpTo(ChunkStart(j))
      modifies vfCompositeLayerCC1, vfCompositeLayerCC2, vCunningham1Multipliers, vCunningham2Multipliers
      modifies primary.vfCandidates, primary.vfCompositeCC1, primary.vfCompositeCC2, primary.vfCompositeBiTwin
      modifies extended.vfCandidates, extended.vfCompositeCC1, extended.vfCompositeCC2, extended.vfCompositeBiTwin
      ensures RowsReady(0, nSieveLayers, ChunkStart(j + 1)) && DoneUpTo(ChunkStart(j + 1))
    {
      var nMinMultiplier := nL1CacheElements * j;
      RoundsCover(j);
      hide *;
      var nMaxMultiplier := if nMinMultiplier + nL1CacheElements < nSieveSize then nMinMultiplier + nL1CacheElements else nSieveSize;
      WeaveChunk(nMinMultiplier, nMaxMultiplier);
    }

    function ChunkStart(j: nat): nat {
      var lo := nL1CacheElements * j;
      if lo < nSieveSize then lo else nSieveSize
    }

    lemma RoundsCover(j: nat)
      requires Shape()
      ensures ChunkStart(0) == 0
      ensures j < (nSieveSize + nL1CacheElements - 1) / nL1CacheElements ==>
                && ChunkStart(j) == nL1CacheElements * j < nSieveSize
                && Chunk(ChunkStart(j), ChunkStart(j + 1))
                && ChunkStart(j + 1) == if nL1CacheElements * j + nL1CacheElements < nSieveSize then nL1CacheElements * j + nL1CacheElements else nSieveSize
    {
      var c, n := nL1CacheElements, nSieveSize;
      var rounds := (n + c - 1) / c;
      if j < rounds {
        MulMono(c, j + 1, rounds);
        assert n + c - 1 == c * rounds + (n + c - 1) % c;
        assert c * (j + 1) == c * j + c;
        AlignedProduct(c, j);
        AlignedProduct(c, j + 1);
      }
    }

    lemma RoundsEnd(rounds: nat)
      requires Shape() && rounds == (nSieveSize + nL1CacheElements - 1) / nL1CacheElements
      ensures ChunkStart(rounds) == nSieveSize
    {
      var c, n := nL1CacheElements, nSieveSize;
      assert n + c - 1 == c * rounds + (n + c - 1) % c;
    }

    // ---------- the scan ----------

    /** The level being scanned: 0 for the base sieve, e + 1 for extension e. */
    ghost function Level(): nat
      reads this
    {
      if fCandidateIsExtended then nCandidateActiveExtension + 1 else 0
    }

    ghost predicate IsCandidate(level: nat, i: nat)
      reads primary.vfCandidates, extended.vfCandidates
    {
      i < nSieveSize
      && if level == 0 then Bit(primary.vfCandidates, 0, i)
         else level <= nSieveExtensions && Bit(extended.vfCandidates, ExtBase(level - 1), i)
    }

    /** Every candidate after the start is at or after the second position. */
    ghost predicate NoneSkipped(level0: nat, i0: nat, level: nat, i: nat)
      reads primary.vfCandidates, extended.vfCandidates
    {
      forall l: nat, j: nat | IsCandidate(l, j) && Before(level0, i0, l, j) :: !Before(l, j, level, i)
    }

    /** The arrays and the offset of a level. */
    function ActiveArrays(fExtended: bool): BitArrays {
      if fExtended then extended else primary
    }

    function ActiveOffset(fExtended: bool, nActiveExtension: nat): nat {
      if fExtended then ExtBase(nActiveExtension) else 0
    }

    lemma ActiveBit(fExtended: bool, nActiveExtension: nat, i: nat)
      requires Shape() && (fExtended ==> nActiveExtension < nSieveExtensions) && i < nSieveSize
      ensures ActiveOffset(fExtended, nActiveExtension) + i / WORD_BITS < ActiveArrays(fExtended).nWords
      ensures IsCandidate(if fExtended then nActiveExtension + 1 else 0, i) <==>
                ActiveArrays(fExtended).vfCandidates[ActiveOffset(fExtended, nActiveExtension) + i / WORD_BITS][i % WORD_BITS]
    {
      if fExtended { ExtensionFits(nActiveExtension); }
    }

    /** Skips empty words from a word boundary on. */
    method SkipEmptyWords(nIndex: nat) returns (nCandidateIndexNew: nat)
      requires Shape() && (fCandidateIsExtended ==> nCandidateActiveExtension < nSieveExtensions)
      requires nIndex % WORD_BITS == 0 && nIndex <= nSieveSize
      ensures nIndex <= nCandidateIndexNew < nSieveSize + WORD_BITS
      ensures forall j: nat | nIndex <= j < nCandidateIndexNew :: !IsCandidate(Level(), j)
    {
      var nMaxWord := WordsUpTo(nSieveSize);
      var nWord := nIndex / WORD_BITS;
      var a, offset := ActiveArrays(fCandidateIsExtended), ActiveOffset(fCandidateIsExtended, nCandidateActiveExtension);
      if fCandidateIsExtended { ExtensionFits(nCandidateActiveExtension); }
      hide TaskOk, TableLongEnough, CSieveOfEratosthenes.ExtBase, CSieveOfEratosthenes.IsCandidate;
      while nWord < nMaxWord && a.vfCandidates[offset + nWord] == ZERO
        invariant nIndex / WORD_BITS <= nWord <= nMaxWord
        invariant forall j: nat | nIndex <= j < nWord * WORD_BITS :: !IsCandidate(Level(), j)
      {
        forall j: nat | nWord * WORD_BITS <= j < (nWord + 1) * WORD_BITS ensures !IsCandidate(Level(), j) {
          EmptyWord(j, nWord);
        }
        nWord := nWord + 1;
      }
      nCandidateIndexNew := nWord * WORD_BITS;
    }

    lemma EmptyWord(j: nat, nWord: nat)
      requires Shape() && (fCandidateIsExtended ==> nCandidateActiveExtension < nSieveExtensions)
      requires nWord == j / WORD_BITS && nWord < nCandidatesWords
      requires ActiveOffset(fCandidateIsExtended, nCandidateActiveExtension) + nWord < ActiveArrays(fCandidateIsExtended).nWords
      requires ActiveArrays(fCandidateIsExtended).vfCandidates[ActiveOffset(fCandidateIsExtended, nCandidateActiveExtension) + nWord] == ZERO
      ensures !IsCandidate(Level(), j)
    {
      if j < nSieveSize {
        ActiveBit(fCandidateIsExtended, nCandidateActiveExtension, j);
        ZeroHasNoBit(j % WORD_BITS);
      }
    }

    lemma SkipTo(level0: nat, i0: nat, level: nat, i: nat, i': nat)
      requires NoneSkipped(level0, i0, level, i) && i <= i'
      requires forall j: nat | i <= j < i' :: !IsCandidate(level, j)
      ensures NoneSkipped(level0, i0, level, i')
    {
      hide CSieveOfEratosthenes.IsCandidate;
    }

    lemma LevelDone(level0: nat, i0: nat, level: nat, i: nat)
      requires NoneSkipped(level0, i0, level, i) && i >= nSieveSize
      ensures NoneSkipped(level0, i0, level + 1, 0)
      ensures level >= nSieveExtensions ==> forall l: nat, j: nat | IsCandidate(l, j) :: !Before(level0, i0, l, j)
    {
    }

    ghost predicate ScanOk()
      reads this
    {
      nCandidateIndex <= nSieveSize + WORD_BITS && (fCandidateIsExtended ==> nCandidateActiveExtension < nSieveExtensions)
    }

    /** Moves to the next index, or to the start of the next extension. */
    method NextIndex(ghost level0: nat, ghost i0: nat) returns (more: bool)
      requires Shape() && ScanOk() && NoneSkipped(level0, i0, Level(), nCandidateIndex + 1)
      requires !Before(Level(), nCandidateIndex, level0, i0)
      modifies this`nCandidateIndex, this`fCandidateIsExtended, this`nCandidateActiveExtension, this`nCandidateMultiplier, this`fIsDepleted
      ensures more ==> ScanOk() && NoneSkipped(level0, i0, Level(), nCandidateIndex) && Before(level0, i0, Level(), nCandidateIndex)
      ensures more ==> nCandidateIndex < nSieveSize || nCandidateIndex == 0
      ensures more ==> Level() == old(Level()) + (if old(nCandidateIndex) + 1 < nSieveSize then 0 else 1)
      ensures more && Level() == old(Level()) ==> nCandidateIndex == old(nCandidateIndex) + 1 && fIsDepleted == old(fIsDepleted)
      ensures !more ==> forall l: nat, j: nat | IsCandidate(l, j) :: !Before(level0, i0, l, j)
      ensures !more ==> Level() == 0 && nCandidateIndex == 0 && nCandidateMultiplier == 0 && fIsDepleted && ScanOk()
    {
      hide CSieveOfEratosthenes.NoneSkipped, CSieveOfEratosthenes.IsCandidate, TaskOk, TableLongEnough;
      nCandidateIndex := nCandidateIndex + 1;
      more := true;
      if nCandidateIndex >= nSieveSize {
        LevelDone(level0, i0, Level(), nCandidateIndex);
        if !fCandidateIsExtended && nSieveExtensions > 0 {
          fCandidateIsExtended := true;
          nCandidateActiveExtension := 0;
          nCandidateIndex := 0;
        } else if fCandidateIsExtended && nCandidateActiveExtension + 1 < nSieveExtensions {
          nCandidateActiveExtension := nCandidateActiveExtension + 1;
          nCandidateIndex := 0;
        } else {
          fCandidateIsExtended := false;
          nCandidateActiveExtension := 0;
          nCandidateIndex := 0;
          nCandidateMultiplier := 0;
          fIsDepleted := true;
          more := false;
        }
      }
    }

    method TestCandidate() returns (hit: bool)
      requires Shape() && ScanOk() && nCandidateIndex < nSieveSize
      ensures hit <==> IsCandidate(Level(), nCandidateIndex)
    {
      ActiveBit(fCandidateIsExtended, nCandidateActiveExtension, nCandidateIndex);
      hide TaskOk, TableLongEnough, CSieveOfEratosthenes.ExtBase, CSieveOfEratosthenes.IsCandidate;
      var w := ActiveArrays(fCandidateIsExtended).vfCandidates[ActiveOffset(fCandidateIsExtended, nCandidateActiveExtension) + GetWordNum(nCandidateIndex)];
      MaskTest(w, nCandidateIndex);
      hit := And(w, GetBitMask(nCandidateIndex)) != ZERO;
    }

    /** One turn of the scan loop: stops at a candidate or when there is no next index. */
    method Probe(ghost level0: nat, ghost i0: nat) returns (stop: bool, found: bool)
      requires Shape() && ScanOk() && NoneSkipped(level0, i0, Level(), nCandidateIndex + 1)
      requires !Before(Level(), nCandidateIndex, level0, i0)
      modifies this`nCandidateIndex, this`fCandidateIsExtended, this`nCandidateActiveExtension, this`nCandidateMultiplier, this`fIsDepleted
      ensures ScanOk() && (found ==> stop)
      ensures found ==> IsCandidate(Level(), nCandidateIndex) && Before(level0, i0, Level(), nCandidateIndex)
      ensures found ==> NoneSkipped(level0, i0, Level(), nCandidateIndex)
      ensures stop && !found ==> forall l: nat, j: nat | IsCandidate(l, j) :: !Before(level0, i0, l, j)
      ensures stop && !found ==> Level() == 0 && nCandidateIndex == 0 && nCandidateMultiplier == 0 && fIsDepleted
      ensures !stop ==> NoneSkipped(level0, i0, Level(), nCandidateIndex + 1) && Before(level0, i0, Level(), nCandidateIndex)
      ensures !stop ==> Level() > old(Level()) || (Level() == old(Level()) && nCandidateIndex > old(nCandidateIndex))
    {
      hide CSieveOfEratosthenes.NoneSkipped, CSieveOfEratosthenes.IsCandidate, CSieveOfEratosthenes.Shape;
      var more := NextIndex(level0, i0);
      if !more {
        return true, false;
      }
      if nCandidateIndex % WORD_BITS == 0 {
        var nSkipped := SkipEmptyWords(nCandidateIndex);
        SkipTo(level0, i0, Level(), nCandidateIndex, nSkipped);
        nCandidateIndex := nSkipped;
      }
      if nCandidateIndex < nSieveSize {
        found := TestCandidate();
        if found {
          return true, true;
        }
      } else {
        OutOfRange(Level(), nCandidateIndex);
      }
      SkipTo(level0, i0, Level(), nCandidateIndex, nCandidateIndex + 1);
      return false, false;
    }

    lemma NothingSkippedYet(level0: nat, i0: nat)
      ensures NoneSkipped(level0, i0, level0, i0 + 1)
    {
    }

    /** Goes to the next candidate after the current position, in order; without one, rewinds. */
    method FindNextCandidate() returns (found: bool)
      requires Shape() && ScanOk()
      modifies this`nCandidateIndex, this`fCandidateIsExtended, this`nCandidateActiveExtension, this`nCandidateMultiplier, this`fIsDepleted
      ensures ScanOk()
      ensures found ==> IsCandidate(Level(), nCandidateIndex) && Before(old(Level()), old(nCandidateIndex), Level(), nCandidateIndex)
      ensures found ==> NoneSkipped(old(Level()), old(nCandidateIndex), Level(), nCandidateIndex)
      ensures !found ==> forall l: nat, j: nat | IsCandidate(l, j) :: !Before(old(Level()), old(nCandidateIndex), l, j)
      ensures !found ==> Level() == 0 && nCandidateIndex == 0 && nCandidateMultiplier == 0 && fIsDepleted
    {
      ghost var level0, i0 := Level(), nCandidateIndex;
      NothingSkippedYet(level0, i0);
      hide CSieveOfEratosthenes.NoneSkipped, CSieveOfEratosthenes.IsCandidate, CSieveOfEratosthenes.Shape;
      var stop := false;
      found := false;
      while !stop
        invariant ScanOk() && (found ==> stop)
        invariant !stop ==> NoneSkipped(level0, i0, Level(), nCandidateIndex + 1) && !Before(Level(), nCandidateIndex, level0, i0)
        invariant found ==> IsCandidate(Level(), nCandidateIndex) && Before(level0, i0, Level(), nCandidateIndex)
        invariant found ==> NoneSkipped(level0, i0, Level(), nCandidateIndex)
        invariant stop && !found ==> forall l: nat, j: nat | IsCandidate(l, j) :: !Before(level0, i0, l, j)
        invariant stop && !found ==> Level() == 0 && nCandidateIndex == 0 && nCandidateMultiplier == 0 && fIsDepleted
        decreases !stop, nSieveExtensions + 1 - Level(), nSieveSize + WORD_BITS - nCandidateIndex
      {
        stop, found := Probe(level0, i0);
      }
    }

    lemma OutOfRange(level: nat, i: nat)
      requires i >= nSieveSize
      ensures !IsCandidate(level, i)
    {
    }

    /** The kind of chain to try at a candidate, bi-twin first. */
    method CandidateType() returns (nCandidateType: nat)
      requires Shape() && ScanOk() && nCandidateIndex < nSieveSize
      requires DoneUpTo(nSieveSize) && IsCandidate(Level(), nCandidateIndex)
      ensures FirstType(T(), nCandidateType, Multiplier(Level(), nCandidateIndex))
    {
      hide CSieveOfEratosthenes.DoneUpTo, TaskOk, TableLongEnough, ChainClear, CSieveOfEratosthenes.IsCandidate;
      BitsMean(Level(), nCandidateIndex);
      ActiveBit(fCandidateIsExtended, nCandidateActiveExtension, nCandidateIndex);
      var a := ActiveArrays(fCandidateIsExtended);
      var w := ActiveOffset(fCandidateIsExtended, nCandidateActiveExtension) + GetWordNum(nCandidateIndex);
      MaskTest(Not(a.vfCompositeBiTwin[w]), nCandidateIndex);
      MaskTest(Not(a.vfCompositeCC1[w]), nCandidateIndex);
      MaskTest(Not(a.vfCompositeCC2[w]), nCandidateIndex);
      nCandidateType := 0; // unknown
      if And(Not(a.vfCompositeBiTwin[w]), GetBitMask(nCandidateIndex)) != ZERO {
        nCandidateType := PRIME_CHAIN_BI_TWIN;
      } else if And(Not(a.vfCompositeCC1[w]), GetBitMask(nCandidateIndex)) != ZERO {
        nCandidateType := PRIME_CHAIN_CUNNINGHAM1;
      } else if And(Not(a.vfCompositeCC2[w]), GetBitMask(nCandidateIndex)) != ZERO {
        nCandidateType := PRIME_CHAIN_CUNNINGHAM2;
      }
    }

    /** Stores the candidate's multiplier in 32 bits. */
    method StoreMultiplier()
      requires Shape() && ScanOk()
      modifies this`nCandidateMultiplier
      ensures nCandidateMultiplier == Multiplier(Level(), nCandidateIndex) % 0x1_0000_0000
    {
      Pow2IsShift(nCandidateActiveExtension);
      if fCandidateIsExtended {
        nCandidateMultiplier := (2 * nCandidateIndex + 1) * (2 * Pow2(nCandidateActiveExtension)) % 0x1_0000_0000;
      } else {
        nCandidateMultiplier := 2 * nCandidateIndex + 1;
      }
    }

    /** The next candidate: no position is skipped and none comes twice. Its multiplier is
        exact as long as it fits 32 bits. */
    method GetNextCandidateMultiplier() returns (found: bool, nVariableMultiplier: nat, nCandidateType: nat)
      requires Shape() && ScanOk() && DoneUpTo(nSieveSize)
      modifies this`nCandidateIndex, this`fCandidateIsExtended, this`nCandidateActiveExtension, this`nCandidateMultiplier, this`fIsDepleted
      ensures ScanOk()
      ensures found ==> IsCandidate(Level(), nCandidateIndex) && Before(old(Level()), old(nCandidateIndex), Level(), nCandidateIndex)
      ensures found ==> NoneSkipped(old(Level()), old(nCandidateIndex), Level(), nCandidateIndex)
      ensures found ==> nVariableMultiplier == Multiplier(Level(), nCandidateIndex) % 0x1_0000_0000
      ensures found ==> FirstType(T(), nCandidateType, Multiplier(Level(), nCandidateIndex))
      ensures !found ==> forall l: nat, j: nat | IsCandidate(l, j) :: !Before(old(Level()), old(nCandidateIndex), l, j)
      ensures !found ==> Level() == 0 && nCandidateIndex == 0 && fIsDepleted
    {
      hide CSieveOfEratosthenes.NoneSkipped, CSieveOfEratosthenes.Shape, DoneOk, LayersOk, CSieveOfEratosthenes.ExtensionsDone, FirstType, Multiplier;
      nVariableMultiplier, nCandidateType := 0, 0;
      assert this !in primary.All() && this !in extended.All();
      found := FindNextCandidate();
      if found {
        StoreMultiplier();
        nVariableMultiplier := nCandidateMultiplier;
        nCandidateType := CandidateType();
      }
    }

    /** The scan from a fresh sieve to its end lists every candidate but index 0 of the base
        sieve, once, in order, and what is reported of each. */
    method ScanAll() returns (vFound: seq<Position>, vReported: seq<Report>)
      requires Shape() && DoneUpTo(nSieveSize) && !fCandidateIsExtended && nCandidateIndex == 0
      modifies this`nCandidateIndex, this`fCandidateIsExtended, this`nCandidateActiveExtension, this`nCandidateMultiplier, this`fIsDepleted
      ensures forall a, b | 0 <= a < b < |vFound| :: Before(vFound[a].level, vFound[a].i, vFound[b].level, vFound[b].i)
      ensures forall l: nat, j: nat :: Position(l, j) in vFound <==> IsCandidate(l, j) && Before(0, 0, l, j)
      ensures fIsDepleted && RightlyReported(T(), vFound, vReported)
    {
      ghost var t := T();
      vFound, vReported := [], [];
      var more := true;
      while more
        invariant ScanOk()
        invariant more ==> Listed(vFound, Level(), nCandidateIndex)
        invariant !more ==> Complete(vFound) && fIsDepleted
        invariant T() == t && RightlyReported(t, vFound, vReported)
        invariant forall a, b | 0 <= a < b < |vFound| :: Before(vFound[a].level, vFound[a].i, vFound[b].level, vFound[b].i)
        decreases more, nSieveExtensions + 1 - Level(), nSieveSize + WORD_BITS - nCandidateIndex
      {
        hide CSieveOfEratosthenes.Shape, CSieveOfEratosthenes.DoneUpTo, FirstType, Multiplier, CSieveOfEratosthenes.IsCandidate;
        ghost var level0, i0 := Level(), nCandidateIndex;
        var found, nMultiplier, nType := GetNextCandidateMultiplier();
        if found {
          vFound := vFound + [Position(if fCandidateIsExtended then nCandidateActiveExtension + 1 else 0, nCandidateIndex)];
          vReported := vReported + [Report(nMultiplier, nType)];
        }
        more := found;
      }
    }

    /** Every candidate up to a position has been listed, and nothing else. */
    ghost predicate Listed(vFound: seq<Position>, level: nat, i: nat)
      reads primary.vfCandidates, extended.vfCandidates
    {
      forall l: nat, j: nat :: Position(l, j) in vFound <==> IsCandidate(l, j) && Before(0, 0, l, j) && !Before(level, i, l, j)
    }

    ghost predicate Complete(vFound: seq<Position>)
      reads primary.vfCandidates, extended.vfCandidates
    {
      forall l: nat, j: nat :: Position(l, j) in vFound <==> IsCandidate(l, j) && Before(0, 0, l, j)
    }

    lemma BitsMean(level: nat, i: nat)
      requires Shape() && DoneUpTo(nSieveSize) && i < nSieveSize && level <= nSieveExtensions
      ensures
        var a, base, x := ActiveArrays(level > 0), if level > 0 then ExtBase(level - 1) else 0, Multiplier(level, i);
        && (Bit(a.vfCompositeCC1, base, i) <==> !ChainSurvives(T(), PRIME_CHAIN_CUNNINGHAM1, x))
        && (Bit(a.vfCompositeCC2, base, i) <==> !ChainSurvives(T(), PRIME_CHAIN_CUNNINGHAM2, x))
        && (Bit(a.vfCompositeBiTwin, base, i) <==> !ChainSurvives(T(), PRIME_CHAIN_BI_TWIN, x))
        && (IsCandidate(level, i) <==> exists nType: nat :: ChainSurvives(T(), nType, x))
    {
      hide AnyStruck, ChainClear;
      var x := Multiplier(level, i);
      if level > 0 { assert ExtensionDone(level - 1, nSieveSize); }
      ClearIs(T(), Minus, level, nChainLength, i);
      ClearIs(T(), Plus, level, nChainLength, i);
      ClearIs(T(), Minus, level, BiTwinLayers(T(), Minus), i);
      ClearIs(T(), Plus, level, BiTwinLayers(T(), Plus), i);
    }
  }

  datatype Position = Position(level: nat, i: nat)

  datatype Report = Report(nVariableMultiplier: nat, nCandidateType: nat)

  /** The type to try first: bi-twin, then the first and the second kind, of those whose whole
      chain no sieving prime divides. */
  ghost predicate FirstType(t: Task, nType: nat, x: nat) {
    && ChainSurvives(t, nType, x)
    && (nType != PRIME_CHAIN_BI_TWIN ==> !ChainSurvives(t, PRIME_CHAIN_BI_TWIN, x))
    && (nType == PRIME_CHAIN_CUNNINGHAM2 ==> !ChainSurvives(t, PRIME_CHAIN_CUNNINGHAM1, x))
  }

  /** Each candidate is reported with its multiplier in 32 bits and the type to try first. */
  ghost predicate RightlyReported(t: Task, vFound: seq<Position>, vReported: seq<Report>) {
    && |vReported| == |vFound|
    && forall k | 0 <= k < |vFound| ::
         && vReported[k].nVariableMultiplier == Multiplier(vFound[k].level, vFound[k].i) % 0x1_0000_0000
         && FirstType(t, vReported[k].nCandidateType, Multiplier(vFound[k].level, vFound[k].i))
  }

  lemma Pow2IsShift(e: nat)
    ensures 2 * Pow2(e) == Pow2(e + 1)
  {
  }

  /** The 32-bit multipliers are exact at every position of a sieve if and only if the last
      one is. */
  lemma MultipliersFit(nSieveSize: nat, nSieveExtensions: nat)
    requires nSieveSize > 0
    ensures (forall level: nat, i: nat | level <= nSieveExtensions && i < nSieveSize :: Multiplier(level, i) % 0x1_0000_0000 == Multiplier(level, i))
              <==> (2 * nSieveSize - 1) * Pow2(nSieveExtensions) < 0x1_0000_0000
  {
    var last := Multiplier(nSieveExtensions, nSieveSize - 1);
    assert last == (2 * nSieveSize - 1) * Pow2(nSieveExtensions);
    hide Multiplier, Pow2;
    if last < 0x1_0000_0000 {
      forall level: nat, i: nat | level <= nSieveExtensions && i < nSieveSize
        ensures Multiplier(level, i) % 0x1_0000_0000 == Multiplier(level, i)
      {
        LaterIsLarger(level, i, nSieveExtensions, nSieveSize - 1);
      }
    }
  }

  lemma LaterIsLarger(level: nat, i: nat, level': nat, i': nat)
    requires level <= level' && i <= i'
    ensures Multiplier(level, i) <= Multiplier(level', i')
  {
    Pow2Mono(level, level');
    MulMono(2 * i + 1, Pow2(level), Pow2(level'));
    MulMono(Pow2(level'), 2 * i + 1, 2 * i' + 1);
  }

  /** The default settings are safe; the largest ones allowed are not. */
  lemma DefaultsFitMaximaDoNot()
    ensures (2 * 1_376_256 - 1) * Pow2(10) < 0x1_0000_0000
    ensures (2 * MAX_SIEVE_SIZE - 1) * Pow2(MAX_SIEVE_EXTENSIONS) >= 0x1_0000_0000
  {
    Pow2Sum(5, 5);
    Pow2Sum(10, 10);
    assert Pow2(5) == 32;
  }

  /** The multiplier of a position: an odd number, doubled once per level. */
  function Multiplier(level: nat, i: nat): nat {
    (2 * i + 1) * Pow2(level)
  }

  /** The k-th number of the chain from multiplier x. */
  function ChainValue(F: nat, sign: Sign, x: nat, k: nat): int {
    F * x * Pow2(k) + (if sign == Minus then -1 else 1)
  }

  /** No prime of the sieve divides any of the first len numbers of the chain from x. */
  ghost predicate ChainClear(t: Task, sign: Sign, x: nat, len: nat) {
    forall s: nat, k: nat | 1 <= s < t.nPrimes && s < |t.vPrimes| && k < len :: !Divides(t.vPrimes[s], ChainValue(t.nFixed, sign, x, k))
  }

  /** No prime of the sieve divides any number of the chain of that kind. */
  ghost predicate ChainSurvives(t: Task, nType: nat, x: nat) {
    if nType == PRIME_CHAIN_CUNNINGHAM1 then ChainClear(t, Minus, x, t.nChainLength)
    else if nType == PRIME_CHAIN_CUNNINGHAM2 then ChainClear(t, Plus, x, t.nChainLength)
    else nType == PRIME_CHAIN_BI_TWIN
         && ChainClear(t, Minus, x, (t.nChainLength + 1) / 2) && ChainClear(t, Plus, x, t.nChainLength / 2)
  }

  lemma ChainValueIs(F: nat, sign: Sign, off: nat, i: nat, k: nat)
    ensures ChainValue(F, sign, Multiplier(off, i), k) == ChainNumber(F, sign, off + k, i)
  {
    Pow2Sum(off, k);
    Regrouped(F, 2 * i + 1, Pow2(off), Pow2(k));
  }

  lemma Regrouped(f: int, m: int, p: int, q: int)
    ensures f * (m * p) * q == f * (p * q) * m
  {
    assert f * (m * p) * q == (f * m) * (p * q) by { assert f * (m * p) == (f * m) * p; }
    assert f * (p * q) * m == (f * m) * (p * q);
  }

  lemma {:induction false} ClearIs(t: Task, sign: Sign, off: nat, len: nat, i: nat)
    ensures AnyStruck(t, sign, off, off + len, i) <==> !ChainClear(t, sign, Multiplier(off, i), len)
  {
    var x := Multiplier(off, i);
    if AnyStruck(t, sign, off, off + len, i) {
      var j: nat :| off <= j < off + len && Struck(t, sign, j, i);
      var s :| 1 <= s < t.nPrimes && s < |t.vPrimes| && Hits(t.vPrimes[s], t.nFixed, sign, j, i);
      ChainValueIs(t.nFixed, sign, off, i, j - off);
      assert Divides(t.vPrimes[s], ChainValue(t.nFixed, sign, x, j - off));
    }
    if !ChainClear(t, sign, x, len) {
      var s: nat, k: nat :| 1 <= s < t.nPrimes && s < |t.vPrimes| && k < len && Divides(t.vPrimes[s], ChainValue(t.nFixed, sign, x, k));
      ChainValueIs(t.nFixed, sign, off, i, k);
      assert Hits(t.vPrimes[s], t.nFixed, sign, off + k, i);
      assert Struck(t, sign, off + k, i);
    }
  }

  /** The order in which the scan goes through levels and indices. */
  ghost predicate Before(level0: nat, i0: nat, level: nat, i: nat) {
    level0 < level || (level0 == level && i0 < i)
  }

  const PRIME_CHAIN_CUNNINGHAM1: nat := 1
  const PRIME_CHAIN_CUNNINGHAM2: nat := 2
  const PRIME_CHAIN_BI_TWIN: nat := 3

  lemma AlignedProduct(c: nat, j: nat)
    requires c % WORD_BITS == 0
    ensures (c * j) % WORD_BITS == 0
  {
    var m := c / WORD_BITS;
    assert c * j == WORD_BITS * (m * j) by { assert (WORD_BITS * m) * j == WORD_BITS * (m * j); }
    QuotientIsUnique(WORD_BITS, c * j, m * j);
  }

  lemma SplitLayers(t: Task, a: BitArrays, base: nat, off: nat, lo: nat, hi: nat, n: nat)
    requires LayersOk(t, a, base, off, 0, lo, n) && lo <= hi <= n
    ensures LayersOk(t, a, base, off, 0, lo, hi) && LayersOk(t, a, base, off, 0, hi, n)
  {
    hide Bit, Composite, BiTwinComposite;
  }

  /** No layer has been applied to a clear array. */
  lemma BlankLayers(t: Task, a: BitArrays, base: nat, off: nat, n: nat)
    requires forall i: nat :: !Bit(a.vfCompositeCC1, base, i) && !Bit(a.vfCompositeCC2, base, i) && !Bit(a.vfCompositeBiTwin, base, i)
    ensures DoneOk(t, a, base, off, 0, 0) && LayersOk(t, a, base, off, 0, 0, n)
  {
    hide Bit;
  }

  lemma EmptyTable(t: Task, sign: Sign, vMultipliers: array<nat>, nLayers: nat)
    requires vMultipliers.Length == nLayers * t.nPrimes && forall x | 0 <= x < vMultipliers.Length :: vMultipliers[x] == UINT_MAX
    ensures TableOk(t, sign, vMultipliers, nLayers, 1, 0)
  {
    forall k: nat, r: nat | k < nLayers && r < t.nPrimes ensures CellAt(t, sign, vMultipliers, k, r, 1, 0) {
      AtInTable(k, nLayers, t.nPrimes, r);
    }
  }

  /** The node's own table is one the sieve can use. */
  lemma TableServesSieve(vPrimes: seq<nat>)
    requires PrimeTable.IsPrimeTable(vPrimes, 1_000_000)
    ensures TableLongEnough(vPrimes)
    ensures forall s | 1 <= s < |vPrimes| :: OddPrime(vPrimes[s])
  {
    PrimeTable.TableEnds(vPrimes);
    forall s | 1 <= s < |vPrimes| ensures OddPrime(vPrimes[s]) {
      assert vPrimes[0] in vPrimes && vPrimes[s] in vPrimes;
    }
  }

  method BuildSieve(vPrimes: seq<nat>, nSieveSize: nat, nSieveFilterPrimes: nat, nSieveExtensions: nat, nL1CacheSize: nat,
                    nBits: nat, mpzHash: nat, mpzFixedMultiplier: nat, nSieveTargetLength: int)
    returns (sieve: CSieveOfEratosthenes)
    requires 0 < nSieveFilterPrimes < |vPrimes| && TableLongEnough(vPrimes)
    requires forall s | 1 <= s < |vPrimes| :: OddPrime(vPrimes[s])
    requires nSieveSize <= MAX_SIEVE_SIZE && nSieveExtensions <= MAX_SIEVE_EXTENSIONS && 0 < nL1CacheSize && nL1CacheSize % 8 == 0
    ensures fresh(sieve) && sieve.Shape() && sieve.DoneUpTo(nSieveSize)
    ensures sieve.T() == Task(vPrimes, nSieveFilterPrimes, mpzHash * mpzFixedMultiplier,
                              if nSieveTargetLength > 0 then nSieveTargetLength else Target.TargetGetLength(nBits))
    ensures sieve.nSieveSize == nSieveSize && sieve.nSieveExtensions == nSieveExtensions
    ensures !sieve.fCandidateIsExtended && sieve.nCandidateIndex == 0
  {
    hide CSieveOfEratosthenes.Shape, CSieveOfEratosthenes.DoneUpTo, CSieveOfEratosthenes.Blank, OddPrime, TableLongEnough;
    sieve := new CSieveOfEratosthenes(vPrimes, nSieveSize, nSieveFilterPrimes, nSieveExtensions, nL1CacheSize,
                                      nBits, mpzHash, mpzFixedMultiplier, nSieveTargetLength);
    sieve.Weave();
  }

  /** A whole sieve: Reset, Weave and the scan (MineProbablePrimeChain, over its calls). The
      positions found are those with a chain that no sieve prime divides. */
  method FindCandidates(vPrimes: seq<nat>, nSieveSize: nat, nSieveFilterPrimes: nat, nSieveExtensions: nat, nL1CacheSize: nat,
                        nBits: nat, mpzHash: nat, mpzFixedMultiplier: nat, nSieveTargetLength: int)
    returns (vFound: seq<Position>, vReported: seq<Report>, ghost t: Task)
    requires 0 < nSieveFilterPrimes < |vPrimes| && TableLongEnough(vPrimes)
    requires forall s | 1 <= s < |vPrimes| :: OddPrime(vPrimes[s])
    requires nSieveSize <= MAX_SIEVE_SIZE && nSieveExtensions <= MAX_SIEVE_EXTENSIONS && 0 < nL1CacheSize && nL1CacheSize % 8 == 0
    ensures t == Task(vPrimes, nSieveFilterPrimes, mpzHash * mpzFixedMultiplier,
                      if nSieveTargetLength > 0 then nSieveTargetLength else Target.TargetGetLength(nBits))
    ensures forall a, b | 0 <= a < b < |vFound| :: Before(vFound[a].level, vFound[a].i, vFound[b].level, vFound[b].i)
    ensures forall level: nat, i: nat :: Position(level, i) in vFound <==>
              && i < nSieveSize && level <= nSieveExtensions && Before(0, 0, level, i)
              && exists nType: nat :: ChainSurvives(t, nType, Multiplier(level, i))
    ensures RightlyReported(t, vFound, vReported)
  {
    var sieve := BuildSieve(vPrimes, nSieveSize, nSieveFilterPrimes, nSieveExtensions, nL1CacheSize,
                            nBits, mpzHash, mpzFixedMultiplier, nSieveTargetLength);
    t := sieve.T();
    hide CSieveOfEratosthenes.Shape, CSieveOfEratosthenes.DoneUpTo, ChainSurvives, FirstType, Multiplier, OddPrime, TableLongEnough;
    vFound, vReported := sieve.ScanAll();
    forall level: nat, i: nat
      ensures sieve.IsCandidate(level, i) <==>
                i < nSieveSize && level <= nSieveExtensions && exists nType: nat :: ChainSurvives(t, nType, Multiplier(level, i))
    {
      if i < nSieveSize && level <= nSieveExtensions { sieve.BitsMean(level, i); }
    }
  }
}
