/** The composite and candidate bit arrays (prime.cpp, the ApplyLayer functions and
    CombineBitsets). */
module SieveArrays {
  import opened SieveBits
  import opened SieveSpec

  /** The four arrays of the base sieve, or of all its extensions laid end to end. */
  class BitArrays {
    const nWords: nat
    const vfCandidates: array<Word>
    const vfCompositeBiTwin: array<Word>
    const vfCompositeCC1: array<Word>
    const vfCompositeCC2: array<Word>

    constructor (nWords: nat)
      ensures Valid() && this.nWords == nWords
      ensures fresh(vfCandidates) && fresh(vfCompositeBiTwin) && fresh(vfCompositeCC1) && fresh(vfCompositeCC2)
      ensures forall base: nat, i: nat :: !Bit(vfCandidates, base, i) && !Bit(vfCompositeBiTwin, base, i)
                                       && !Bit(vfCompositeCC1, base, i) && !Bit(vfCompositeCC2, base, i)
    {
      this.nWords := nWords;
      vfCandidates := new Word[nWords](_ => ZERO);
      vfCompositeBiTwin := new Word[nWords](_ => ZERO);
      vfCompositeCC1 := new Word[nWords](_ => ZERO);
      vfCompositeCC2 := new Word[nWords](_ => ZERO);
    }

    predicate Valid() {
      && vfCandidates.Length == vfCompositeBiTwin.Length == vfCompositeCC1.Length == vfCompositeCC2.Length == nWords
      && vfCandidates != vfCompositeBiTwin && vfCompositeBiTwin != vfCompositeCC1 && vfCompositeCC1 != vfCompositeCC2
      && vfCandidates != vfCompositeCC1 && vfCandidates != vfCompositeCC2 && vfCompositeBiTwin != vfCompositeCC2
    }

    ghost function Composites(): set<object> {
      {vfCompositeBiTwin, vfCompositeCC1, vfCompositeCC2}
    }

    ghost function All(): set<object> {
      {vfCandidates, vfCompositeBiTwin, vfCompositeCC1, vfCompositeCC2}
    }
  }

  /** How many words the first n bits take. */
  function WordsUpTo(n: nat): nat {
    (n + WORD_BITS - 1) / WORD_BITS
  }

  function Min(a: int, b: int): int {
    if a < b then a else b
  }

  /** The layers that count towards a bi-twin chain: the first half, rounded up on the -1 side
      and down on the +1 side. */
  function BiTwinLayers(t: Task, sign: Sign): nat {
    if sign == Minus then (t.nChainLength + 1) / 2 else t.nChainLength / 2
  }

  /** What a bit of the composite arrays stands for once layers below L have been applied to
      the arrays of a chain that starts `off` layers up. */
  ghost predicate Composite(t: Task, sign: Sign, off: nat, L: nat, i: nat) {
    AnyStruck(t, sign, off, Min(L, off + t.nChainLength), i)
  }

  ghost predicate BiTwinComposite(t: Task, off: nat, L: nat, i: nat) {
    || AnyStruck(t, Minus, off, Min(L, off + BiTwinLayers(t, Minus)), i)
    || AnyStruck(t, Plus, off, Min(L, off + BiTwinLayers(t, Plus)), i)
  }

  ghost predicate LayersOk(t: Task, a: BitArrays, base: nat, off: nat, L: nat, lo: nat, hi: nat)
    reads a.Composites()
  {
    forall i: nat | lo <= i < hi ::
      && (Bit(a.vfCompositeCC1, base, i) <==> Composite(t, Minus, off, L, i))
      && (Bit(a.vfCompositeCC2, base, i) <==> Composite(t, Plus, off, L, i))
      && (Bit(a.vfCompositeBiTwin, base, i) <==> BiTwinComposite(t, off, L, i))
  }

  /** The layer arrays hold layer L of a chunk. */
  ghost predicate LayerHolds(t: Task, vfLayerCC1: array<Word>, vfLayerCC2: array<Word>, L: nat, lo: nat, hi: nat)
    reads vfLayerCC1, vfLayerCC2
  {
    && (forall i: nat | lo <= i < hi :: Bit(vfLayerCC1, 0, i) <==> Struck(t, Minus, L, i))
    && (forall i: nat | lo <= i < hi :: Bit(vfLayerCC2, 0, i) <==> Struck(t, Plus, L, i))
  }

  datatype BiTwinPart = Both | OnlyCC1 | Neither

  /** What a layer adds to a word of the bi-twin array. */
  function TwinWord(part: BiTwinPart, twin: Word, layer1: Word, layer2: Word): Word {
    match part
    case Both => Or(twin, Or(layer1, layer2))
    case OnlyCC1 => Or(twin, layer1)
    case Neither => twin
  }

  /** ApplyLayerTWNBoth, ApplyLayerTWNOnlyCC1 and ApplyLayerTWNNone. */
  method ApplyLayer(part: BiTwinPart, nMinWord: nat, nMaxWord: nat, a: BitArrays, base: nat,
                    vfLayerCC1: array<Word>, vfLayerCC2: array<Word>)
    requires a.Valid() && {vfLayerCC1, vfLayerCC2} !! a.Composites()
    requires nMinWord <= nMaxWord <= vfLayerCC1.Length && vfLayerCC2.Length == vfLayerCC1.Length && base + nMaxWord <= a.nWords
    modifies a.vfCompositeCC1, a.vfCompositeCC2, a.vfCompositeBiTwin
    ensures forall x | 0 <= x < a.nWords :: a.vfCompositeCC1[x] ==
              if base + nMinWord <= x < base + nMaxWord then Or(old(a.vfCompositeCC1[x]), vfLayerCC1[x - base]) else old(a.vfCompositeCC1[x])
    ensures forall x | 0 <= x < a.nWords :: a.vfCompositeCC2[x] ==
              if base + nMinWord <= x < base + nMaxWord then Or(old(a.vfCompositeCC2[x]), vfLayerCC2[x - base]) else old(a.vfCompositeCC2[x])
    ensures forall x | 0 <= x < a.nWords :: a.vfCompositeBiTwin[x] ==
              if base + nMinWord <= x < base + nMaxWord
              then TwinWord(part, old(a.vfCompositeBiTwin[x]), vfLayerCC1[x - base], vfLayerCC2[x - base]) else old(a.vfCompositeBiTwin[x])
  {
    hide Or, TwinWord;
    for nWord := nMinWord to nMaxWord
      invariant forall x | 0 <= x < a.nWords :: a.vfCompositeCC1[x] ==
                  if base + nMinWord <= x < base + nWord then Or(old(a.vfCompositeCC1[x]), vfLayerCC1[x - base]) else old(a.vfCompositeCC1[x])
      invariant forall x | 0 <= x < a.nWords :: a.vfCompositeCC2[x] ==
                  if base + nMinWord <= x < base + nWord then Or(old(a.vfCompositeCC2[x]), vfLayerCC2[x - base]) else old(a.vfCompositeCC2[x])
      invariant forall x | 0 <= x < a.nWords :: a.vfCompositeBiTwin[x] ==
                  if base + nMinWord <= x < base + nWord
                  then TwinWord(part, old(a.vfCompositeBiTwin[x]), vfLayerCC1[x - base], vfLayerCC2[x - base]) else old(a.vfCompositeBiTwin[x])
    {
      a.vfCompositeCC1[base + nWord] := Or(a.vfCompositeCC1[base + nWord], vfLayerCC1[nWord]);
      a.vfCompositeCC2[base + nWord] := Or(a.vfCompositeCC2[base + nWord], vfLayerCC2[nWord]);
      a.vfCompositeBiTwin[base + nWord] := TwinWord(part, a.vfCompositeBiTwin[base + nWord], vfLayerCC1[nWord], vfLayerCC2[nWord]);
    }
  }

  /** Layers below L, then layer L: one more layer counts if it is among the chain's. */
  lemma CompositeStep(t: Task, sign: Sign, off: nat, len: nat, L: nat, i: nat)
    ensures AnyStruck(t, sign, off, Min(L + 1, off + len), i) <==>
              AnyStruck(t, sign, off, Min(L, off + len), i) || (off <= L < off + len && Struck(t, sign, L, i))
  {
    if off <= L < off + len {
      AnyStruckStep(t, sign, off, L, i);
    }
  }

  /** Whether layer L is one of the chain's that starts `off` layers up. */
  predicate InChain(nChainLength: nat, off: nat, L: nat) {
    off <= L < nChainLength + off
  }

  /** Which half of the bi-twin layers it belongs to. */
  function PartOf(nChainLength: nat, off: nat, L: nat): BiTwinPart {
    if off <= L < nChainLength / 2 + off then Both
    else if off <= L < (nChainLength + 1) / 2 + off then OnlyCC1
    else Neither
  }

  lemma CompositeBits(t: Task, off: nat, L: nat, i: nat)
    ensures Composite(t, Minus, off, L + 1, i) <==> Composite(t, Minus, off, L, i) || (InChain(t.nChainLength, off, L) && Struck(t, Minus, L, i))
    ensures Composite(t, Plus, off, L + 1, i) <==> Composite(t, Plus, off, L, i) || (InChain(t.nChainLength, off, L) && Struck(t, Plus, L, i))
    ensures BiTwinComposite(t, off, L + 1, i) <==>
              || BiTwinComposite(t, off, L, i)
              || (PartOf(t.nChainLength, off, L) != Neither && Struck(t, Minus, L, i))
              || (PartOf(t.nChainLength, off, L) == Both && Struck(t, Plus, L, i))
  {
    hide AnyStruck, Struck;
    CompositeStep(t, Minus, off, t.nChainLength, L, i);
    CompositeStep(t, Plus, off, t.nChainLength, L, i);
    CompositeStep(t, Minus, off, BiTwinLayers(t, Minus), L, i);
    CompositeStep(t, Plus, off, BiTwinLayers(t, Plus), L, i);
  }

  /** Applying a layer, bit by bit. */
  lemma ApplyBits(part: BiTwinPart, w1: Word, w2: Word, wt: Word, layer1: Word, layer2: Word, k: nat)
    requires k < WORD_BITS
    ensures Or(w1, layer1)[k] <==> w1[k] || layer1[k]
    ensures Or(w2, layer2)[k] <==> w2[k] || layer2[k]
    ensures TwinWord(part, wt, layer1, layer2)[k] <==> wt[k] || (part != Neither && layer1[k]) || (part == Both && layer2[k])
  {
  }

  /** Applies layer L to the arrays of a chain that starts `off` layers up. */
  method ApplyLayerTo(ghost t: Task, nChainLength: nat, a: BitArrays, base: nat, off: nat, nLayerSeq: nat,
                      nMinMultiplier: nat, nMaxMultiplier: nat, vfLayerCC1: array<Word>, vfLayerCC2: array<Word>)
    requires t.nChainLength == nChainLength
    requires a.Valid() && {vfLayerCC1, vfLayerCC2} !! a.Composites() && vfLayerCC2.Length == vfLayerCC1.Length
    requires nMinMultiplier % WORD_BITS == 0 && nMinMultiplier <= nMaxMultiplier <= WORD_BITS * vfLayerCC1.Length
    requires base + vfLayerCC1.Length <= a.nWords
    requires LayerHolds(t, vfLayerCC1, vfLayerCC2, nLayerSeq, nMinMultiplier, nMaxMultiplier)
    requires LayersOk(t, a, base, off, nLayerSeq, nMinMultiplier, nMaxMultiplier)
    modifies a.vfCompositeCC1, a.vfCompositeCC2, a.vfCompositeBiTwin
    ensures LayersOk(t, a, base, off, nLayerSeq + 1, nMinMultiplier, nMaxMultiplier)
    ensures CompositesKept(a, base + nMinMultiplier / WORD_BITS, base + WordsUpTo(nMaxMultiplier))
  {
    var nMinWord := nMinMultiplier / WORD_BITS;
    var nMaxWord := WordsUpTo(nMaxMultiplier);
    var part := PartOf(nChainLength, off, nLayerSeq);
    assert InChain(nChainLength, off, nLayerSeq) || part == Neither;
    hide Struck, Composite, BiTwinComposite, PartOf, Or, TwinWord;
    if nLayerSeq >= off && nLayerSeq < nChainLength + off {
      ApplyLayer(part, nMinWord, nMaxWord, a, base, vfLayerCC1, vfLayerCC2);
    }
    forall i: nat | nMinMultiplier <= i < nMaxMultiplier
      ensures Bit(a.vfCompositeCC1, base, i) <==> Composite(t, Minus, off, nLayerSeq + 1, i)
      ensures Bit(a.vfCompositeCC2, base, i) <==> Composite(t, Plus, off, nLayerSeq + 1, i)
      ensures Bit(a.vfCompositeBiTwin, base, i) <==> BiTwinComposite(t, off, nLayerSeq + 1, i)
    {
      CompositeBits(t, off, nLayerSeq, i);
      var w := i / WORD_BITS;
      assert nMinWord <= w < nMaxWord;
      var x := base + w;
      ApplyBits(part, old(a.vfCompositeCC1[x]), old(a.vfCompositeCC2[x]), old(a.vfCompositeBiTwin[x]),
                vfLayerCC1[w], vfLayerCC2[w], i % WORD_BITS);
      assert Bit(vfLayerCC1, 0, i) == vfLayerCC1[w][i % WORD_BITS] && Bit(vfLayerCC2, 0, i) == vfLayerCC2[w][i % WORD_BITS];
    }
  }

  /** The four arrays, finished, for one chain: composites of each kind, and the candidates. */
  ghost predicate DoneOk(t: Task, a: BitArrays, base: nat, off: nat, lo: nat, hi: nat)
    reads a.All()
  {
    forall i: nat | lo <= i < hi ::
      && (Bit(a.vfCompositeCC1, base, i) <==> Composite(t, Minus, off, off + t.nChainLength, i))
      && (Bit(a.vfCompositeCC2, base, i) <==> Composite(t, Plus, off, off + t.nChainLength, i))
      && (Bit(a.vfCompositeBiTwin, base, i) <==> BiTwinComposite(t, off, off + t.nChainLength, i))
      && (Bit(a.vfCandidates, base, i) <==>
            !(Bit(a.vfCompositeCC1, base, i) && Bit(a.vfCompositeCC2, base, i) && Bit(a.vfCompositeBiTwin, base, i)))
  }

  lemma DoneJoins(t: Task, a: BitArrays, base: nat, off: nat, lo: nat, hi: nat)
    requires DoneOk(t, a, base, off, 0, lo) && DoneOk(t, a, base, off, lo, hi)
    ensures DoneOk(t, a, base, off, 0, hi)
  {
    hide Bit, Composite, BiTwinComposite;
  }

  method CombineBitsets(nMinWord: nat, nMaxWord: nat, a: BitArrays, base: nat)
    requires a.Valid() && nMinWord <= nMaxWord && base + nMaxWord <= a.nWords
    modifies a.vfCandidates
    ensures forall x | 0 <= x < a.nWords :: a.vfCandidates[x] ==
              if base + nMinWord <= x < base + nMaxWord
              then Not(And(And(a.vfCompositeCC1[x], a.vfCompositeCC2[x]), a.vfCompositeBiTwin[x])) else old(a.vfCandidates[x])
  {
    hide Not, And;
    for nWord := nMinWord to nMaxWord
      invariant forall x | 0 <= x < a.nWords :: a.vfCandidates[x] ==
                  if base + nMinWord <= x < base + nWord
                  then Not(And(And(a.vfCompositeCC1[x], a.vfCompositeCC2[x]), a.vfCompositeBiTwin[x])) else old(a.vfCandidates[x])
    {
      var x := base + nWord;
      a.vfCandidates[x] := Not(And(And(a.vfCompositeCC1[x], a.vfCompositeCC2[x]), a.vfCompositeBiTwin[x]));
    }
  }

  lemma CombineBits(w1: Word, w2: Word, wt: Word, k: nat)
    requires k < WORD_BITS
    ensures Not(And(And(w1, w2), wt))[k] <==> !(w1[k] && w2[k] && wt[k])
  {
  }

  method CombineTo(ghost t: Task, a: BitArrays, base: nat, ghost off: nat, ghost L: nat, nMinMultiplier: nat, nMaxMultiplier: nat, nWords: nat)
    requires a.Valid() && base + nWords <= a.nWords && off + t.nChainLength <= L
    requires nMinMultiplier % WORD_BITS == 0 && nMinMultiplier <= nMaxMultiplier <= WORD_BITS * nWords
    requires LayersOk(t, a, base, off, L, nMinMultiplier, nMaxMultiplier)
    modifies a.vfCandidates
    ensures DoneOk(t, a, base, off, nMinMultiplier, nMaxMultiplier)
    ensures CandidatesKept(a, base + nMinMultiplier / WORD_BITS, base + WordsUpTo(nMaxMultiplier))
  {
    var nMinWord := nMinMultiplier / WORD_BITS;
    var nMaxWord := WordsUpTo(nMaxMultiplier);
    CombineBitsets(nMinWord, nMaxWord, a, base);
    hide Not, And, AnyStruck;
    forall i: nat | nMinMultiplier <= i < nMaxMultiplier
      ensures Bit(a.vfCandidates, base, i) <==>
                !(Bit(a.vfCompositeCC1, base, i) && Bit(a.vfCompositeCC2, base, i) && Bit(a.vfCompositeBiTwin, base, i))
    {
      var x := base + i / WORD_BITS;
      assert nMinWord <= i / WORD_BITS < nMaxWord;
      CombineBits(a.vfCompositeCC1[x], a.vfCompositeCC2[x], a.vfCompositeBiTwin[x], i % WORD_BITS);
    }
    hide Bit;
  }

  // ---------- what a change to some words leaves alone ----------

  ghost predicate Outside(base: nat, lo: nat, hi: nat, from: nat, to: nat) {
    base + WordsUpTo(hi) <= from || to <= base + lo / WORD_BITS || hi <= lo
  }

  twostate predicate CompositesKept(a: BitArrays, new from: nat, new to: nat)
    requires a.Valid()
    reads a.Composites()
  {
    && (forall x | 0 <= x < a.nWords && !(from <= x < to) :: a.vfCompositeCC1[x] == old(a.vfCompositeCC1[x]))
    && (forall x | 0 <= x < a.nWords && !(from <= x < to) :: a.vfCompositeCC2[x] == old(a.vfCompositeCC2[x]))
    && (forall x | 0 <= x < a.nWords && !(from <= x < to) :: a.vfCompositeBiTwin[x] == old(a.vfCompositeBiTwin[x]))
  }

  twostate predicate CandidatesKept(a: BitArrays, new from: nat, new to: nat)
    requires a.Valid()
    reads a.vfCandidates
  {
    forall x | 0 <= x < a.nWords && !(from <= x < to) :: a.vfCandidates[x] == old(a.vfCandidates[x])
  }

  twostate lemma LayersKept(new t: Task, a: BitArrays, new base: nat, new off: nat, new L: nat, new lo: nat, new hi: nat, new from: nat, new to: nat)
    requires a.Valid() && Outside(base, lo, hi, from, to)
    requires CompositesKept(a, from, to)
    requires old(LayersOk(t, a, base, off, L, lo, hi))
    ensures LayersOk(t, a, base, off, L, lo, hi)
  {
    hide Composite, BiTwinComposite;
    forall i: nat | lo <= i < hi
      ensures Bit(a.vfCompositeCC1, base, i) == old(Bit(a.vfCompositeCC1, base, i))
      ensures Bit(a.vfCompositeCC2, base, i) == old(Bit(a.vfCompositeCC2, base, i))
      ensures Bit(a.vfCompositeBiTwin, base, i) == old(Bit(a.vfCompositeBiTwin, base, i))
    {
      var x := base + i / WORD_BITS;
      assert !(from <= x < to);
    }
  }

  twostate lemma DoneKept(new t: Task, a: BitArrays, new base: nat, new off: nat, new lo: nat, new hi: nat, new from: nat, new to: nat)
    requires a.Valid() && Outside(base, lo, hi, from, to)
    requires CompositesKept(a, from, to) && CandidatesKept(a, from, to)
    requires old(DoneOk(t, a, base, off, lo, hi))
    ensures DoneOk(t, a, base, off, lo, hi)
  {
    hide Composite, BiTwinComposite;
    forall i: nat | lo <= i < hi
      ensures Bit(a.vfCompositeCC1, base, i) == old(Bit(a.vfCompositeCC1, base, i))
      ensures Bit(a.vfCompositeCC2, base, i) == old(Bit(a.vfCompositeCC2, base, i))
      ensures Bit(a.vfCompositeBiTwin, base, i) == old(Bit(a.vfCompositeBiTwin, base, i))
      ensures Bit(a.vfCandidates, base, i) == old(Bit(a.vfCandidates, base, i))
    {
      var x := base + i / WORD_BITS;
      assert !(from <= x < to);
    }
  }
}
