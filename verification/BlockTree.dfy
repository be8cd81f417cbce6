/** The block index tree (main.h, CBlockIndex). A block's data and undo data are values
    of the entry: what the block and undo files hold. */
module BlockTree {
  import opened CoinRecords
  import opened UtxoSet

  class CBlockIndex {
    const hash: nat
    const pprev: CBlockIndex?
    const nHeight: nat
    const nBits: nat
    const nChainWork: nat
    const vtx: seq<Tx>

    /** The active successor; null off the main chain and at its tip. */
    var pnext: CBlockIndex?
    var undo: Option<seq<seq<TxInUndo>>>
    var fFailed: bool
    var nMoneySupply: int

    constructor (hash: nat, pprev: CBlockIndex?, nBits: nat, nBlockWork: nat, vtx: seq<Tx>)
      ensures this.hash == hash && this.pprev == pprev && this.nBits == nBits && this.vtx == vtx
      ensures nHeight == (if pprev == null then 0 else pprev.nHeight + 1)
      ensures nChainWork == (if pprev == null then 0 else pprev.nChainWork) + nBlockWork
      ensures pnext == null && undo == None && !fFailed && nMoneySupply == 0
      ensures pprev == null || pprev.Linked() ==> Linked()
    {
      this.hash, this.pprev, this.nBits, this.vtx := hash, pprev, nBits, vtx;
      this.nHeight := if pprev == null then 0 else pprev.nHeight + 1;
      this.nChainWork := (if pprev == null then 0 else pprev.nChainWork) + nBlockWork;
      pnext, undo, fFailed, nMoneySupply := null, None, false, 0;
    }

    /** Heights count the ancestors. */
    ghost predicate Linked()
      decreases nHeight
    {
      if pprev == null then nHeight == 0
      else nHeight == pprev.nHeight + 1 && pprev.Linked()
    }

    /** The ancestor-or-self at a height. */
    ghost function Ancestor(h: nat): (r: CBlockIndex)
      requires Linked() && h <= nHeight
      ensures r.Linked() && r.nHeight == h
      decreases nHeight
    {
      if h == nHeight then this else pprev.Ancestor(h)
    }

    ghost predicate Descends(a: CBlockIndex) {
      Linked() && a.nHeight <= nHeight && Ancestor(a.nHeight) == a
    }
  }

  lemma RootIsAtZero(b: CBlockIndex)
    requires b.Linked()
    ensures b.pprev == null <==> b.nHeight == 0
    ensures b.pprev != null ==> b.pprev.Linked()
  {
  }

  lemma AncestorSelf(b: CBlockIndex)
    requires b.Linked()
    ensures b.Ancestor(b.nHeight) == b
  {
  }

  lemma {:induction false} AncestorOfAncestor(b: CBlockIndex, h: nat, g: nat)
    requires b.Linked() && g <= h <= b.nHeight
    ensures b.Ancestor(h).Ancestor(g) == b.Ancestor(g)
    decreases b.nHeight
  {
    if h < b.nHeight { AncestorOfAncestor(b.pprev, h, g); }
  }

  lemma {:induction false} ParentOfAncestor(b: CBlockIndex, h: nat)
    requires b.Linked() && 0 < h <= b.nHeight
    ensures b.Ancestor(h).pprev == b.Ancestor(h - 1)
    decreases b.nHeight
  {
    if h < b.nHeight { ParentOfAncestor(b.pprev, h); }
  }

  lemma DescendsTransitive(c: CBlockIndex, b: CBlockIndex, a: CBlockIndex)
    requires c.Linked() && c.Descends(b) && b.Linked() && b.Descends(a)
    ensures c.Descends(a)
  {
    AncestorOfAncestor(c, b.nHeight, a.nHeight);
  }
}
