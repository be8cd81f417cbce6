/** The node's chain globals and SetBestChain (main.cpp:1562-1697). */
module ChainState {
  import opened UtxoSet
  import opened MoneySupply
  import opened BlockTree
  import opened CoinsViews
  import opened Validation
  import opened Chain

  /** mapBlockIndex: a tree with one root, the genesis block, closed under parents. */
  ghost predicate Tree(index: set<CBlockIndex>, hashGenesisBlock: nat) {
    && (forall b | b in index :: b.Linked() && Placed(b, hashGenesisBlock) && (b.pprev != null ==> b.pprev in index))
    && (forall a, b | a in index && b in index && a.pprev == null && b.pprev == null :: a == b)
  }

  lemma {:induction false} AncestorInTree(index: set<CBlockIndex>, g: nat, b: CBlockIndex, h: nat)
    requires Tree(index, g) && b in index && h <= b.nHeight
    ensures b.Ancestor(h) in index
    decreases b.nHeight
  {
    if h < b.nHeight { AncestorInTree(index, g, b.pprev, h); }
  }

  lemma OneRoot(index: set<CBlockIndex>, g: nat, a: CBlockIndex, b: CBlockIndex)
    requires Tree(index, g) && a in index && b in index
    ensures a.Ancestor(0) == b.Ancestor(0)
  {
    AncestorInTree(index, g, a, 0);
    AncestorInTree(index, g, b, 0);
  }

  /** The active successor of b when the links up to height `lim` follow the branch of `tip`. */
  ghost function NextBelow(tip: CBlockIndex?, lim: int, b: CBlockIndex): CBlockIndex? {
    if tip != null && tip.Descends(b) && b.nHeight < lim && b.nHeight < tip.nHeight then tip.Ancestor(b.nHeight + 1) else null
  }

  function HeightOr(b: CBlockIndex?, none: int): int {
    if b == null then none else b.nHeight
  }

  /** pnext leads along the branch of `tip` and nowhere else. */
  ghost predicate NextFollows(index: set<CBlockIndex>, tip: CBlockIndex?, lim: int)
    reads index`pnext
  {
    forall b | b in index :: b.pnext == NextBelow(tip, lim, b)
  }

  /** Below their fork two branches have the same blocks. */
  lemma NextBelowFork(tip: CBlockIndex, pindexNew: CBlockIndex, pfork: CBlockIndex, b: CBlockIndex)
    requires tip.Linked() && pindexNew.Linked() && pfork.Linked() && tip.Descends(pfork) && pindexNew.Descends(pfork)
    ensures NextBelow(tip, pfork.nHeight, b) == NextBelow(pindexNew, pfork.nHeight, b)
  {
    if b.nHeight < pfork.nHeight {
      AncestorOfAncestor(tip, pfork.nHeight, b.nHeight);
      AncestorOfAncestor(pindexNew, pfork.nHeight, b.nHeight);
      AncestorOfAncestor(tip, pfork.nHeight, b.nHeight + 1);
      AncestorOfAncestor(pindexNew, pfork.nHeight, b.nHeight + 1);
    }
  }

  /** Moving the limit across height h changes one block's successor, if any: the parent's
      of the block at h. */
  lemma NextBelowStep(tip: CBlockIndex, h: nat, x: CBlockIndex)
    requires tip.Linked() && h <= tip.nHeight
    ensures NextBelow(tip, h, x) == if x == tip.Ancestor(h).pprev then tip.Ancestor(h) else NextBelow(tip, h - 1, x)
    ensures x == tip.Ancestor(h).pprev ==> NextBelow(tip, h - 1, x) == null
  {
    if h > 0 { ParentOfAncestor(tip, h); }
  }

  /** Clears the link to the block at height h, where the branch's links end. */
  method UnlinkOne(index: set<CBlockIndex>, tip: CBlockIndex, b: CBlockIndex)
    requires tip.Linked() && b.nHeight <= tip.nHeight && b == tip.Ancestor(b.nHeight)
    requires b.pprev != null ==> b.pprev in index
    requires NextFollows(index, tip, b.nHeight)
    modifies index`pnext
    ensures NextFollows(index, tip, b.nHeight - 1)
  {
    hide NextBelow, CBlockIndex.Linked, CBlockIndex.Ancestor;
    if b.pprev != null {
      b.pprev.pnext := null;
    }
    forall x | x in index ensures x.pnext == NextBelow(tip, b.nHeight - 1, x) {
      NextBelowStep(tip, b.nHeight, x);
    }
  }

  /** Sets the link to the block at height h, one above where the branch's links end. */
  method LinkOne(index: set<CBlockIndex>, tip: CBlockIndex, b: CBlockIndex)
    requires tip.Linked() && b.nHeight <= tip.nHeight && b == tip.Ancestor(b.nHeight)
    requires b.pprev != null ==> b.pprev in index
    requires NextFollows(index, tip, b.nHeight - 1)
    modifies index`pnext
    ensures NextFollows(index, tip, b.nHeight)
  {
    hide NextBelow, CBlockIndex.Linked, CBlockIndex.Ancestor;
    if b.pprev != null {
      b.pprev.pnext := b;
    }
    forall x | x in index ensures x.pnext == NextBelow(tip, b.nHeight, x) {
      NextBelowStep(tip, b.nHeight, x);
    }
  }

  method UnlinkBranch(index: set<CBlockIndex>, g: nat, v: seq<CBlockIndex>, tip: CBlockIndex?)
    requires Tree(index, g) && (tip != null ==> tip in index)
    requires |v| <= HeightOr(tip, -1) + 1 && forall i | 0 <= i < |v| :: v[i] == tip.Ancestor(tip.nHeight - i)
    requires NextFollows(index, tip, HeightOr(tip, -1))
    modifies index`pnext
    ensures NextFollows(index, tip, HeightOr(tip, -1) - |v|)
  {
    hide NextFollows, NextBelow, CBlockIndex.Ancestor, CBlockIndex.Linked, Placed;
    for i := 0 to |v|
      invariant NextFollows(index, tip, HeightOr(tip, -1) - i)
    {
      AncestorInTree(index, g, tip, tip.nHeight - i);
      UnlinkOne(index, tip, v[i]);
    }
  }

  method LinkBranch(index: set<CBlockIndex>, g: nat, w: seq<CBlockIndex>, pindexNew: CBlockIndex)
    requires Tree(index, g) && pindexNew in index
    requires |w| <= pindexNew.nHeight + 1
    requires forall i | 0 <= i < |w| :: w[i] == pindexNew.Ancestor(pindexNew.nHeight - |w| + 1 + i)
    requires NextFollows(index, pindexNew, pindexNew.nHeight - |w|)
    modifies index`pnext
    ensures NextFollows(index, pindexNew, pindexNew.nHeight)
  {
    hide NextFollows, NextBelow, CBlockIndex.Ancestor;
    for i := 0 to |w|
      invariant NextFollows(index, pindexNew, pindexNew.nHeight - |w| + i)
    {
      ghost var h := pindexNew.nHeight - |w| + 1 + i;
      AncestorInTree(index, g, pindexNew, h);
      LinkOne(index, pindexNew, w[i]);
    }
  }

  /** All connected blocks up to b were connected properly. */
  ghost predicate BranchApplied(index: set<CBlockIndex>, b: CBlockIndex)
    reads index`undo, index`nMoneySupply
  {
    forall a | a in index && b.Descends(a) :: Applied(a)
  }

  ghost predicate AllRecordsOk(index: set<CBlockIndex>)
    reads index`undo, index`nMoneySupply
  {
    forall a | a in index :: RecordOk(a)
  }

  lemma NothingIsOk()
    ensures UtxoOk(Replay(null))
  {
  }

  lemma BranchReplayIsOk(index: set<CBlockIndex>, g: nat, tip: CBlockIndex, b: CBlockIndex)
    requires Tree(index, g) && tip in index && BranchApplied(index, tip) && tip.Descends(b)
    ensures b in index && UtxoOk(Replay(b))
  {
    AncestorInTree(index, g, tip, b.nHeight);
    forall h | 0 < h <= b.nHeight ensures BlockOk(b.Ancestor(h).vtx) {
      AncestorInTree(index, g, b, h);
      DescendsTransitive(tip, b, b.Ancestor(h));
      assert Applied(b.Ancestor(h));
    }
    ReplayIsOk(b);
  }

  /** Every connected block that replaced nothing unspent can be undone exactly. */
  lemma BranchIsUndoable(index: set<CBlockIndex>, g: nat, tip: CBlockIndex, b: CBlockIndex)
    requires Tree(index, g) && tip in index && BranchApplied(index, tip) && AllRecordsOk(index)
    requires tip.Descends(b) && b.nHeight > 0 && ExemptSafely(b)
    ensures b in index && b.pprev != null && b.pprev.Linked() && Undoable(b)
  {
    AncestorInTree(index, g, tip, b.nHeight);
    ParentOfAncestor(tip, b.nHeight);
    assert tip.Descends(b.pprev);
    BranchReplayIsOk(index, g, tip, b.pprev);
    assert Sound(b);
    if NoDuplicates(Replay(b.pprev), b.vtx) {
      NoDuplicatesMeansNoOverwrites(Replay(b.pprev), b.vtx, b.nHeight, |b.vtx|);
    }
  }

  // ---------- the plan of a reorganisation ----------

  /** pfork is the last block two branches share; null when there is no old branch. */
  ghost predicate ForkOf(tip: CBlockIndex?, pindexNew: CBlockIndex, pfork: CBlockIndex?)
  {
    && pindexNew.Linked() && (tip != null ==> tip.Linked())
    && (pfork == null <==> tip == null)
    && (pfork != null ==> pfork.Linked() && tip.Descends(pfork) && pindexNew.Descends(pfork))
    && (pfork != null ==>
          forall h: nat | pfork.nHeight < h <= tip.nHeight && h <= pindexNew.nHeight :: tip.Ancestor(h) != pindexNew.Ancestor(h))
  }

  /** The blocks to disconnect, newest first, and to connect, oldest first. */
  ghost predicate IsPlan(tip: CBlockIndex?, pindexNew: CBlockIndex, pfork: CBlockIndex?, v: seq<CBlockIndex>, w: seq<CBlockIndex>)
  {
    && ForkOf(tip, pindexNew, pfork)
    && |v| == HeightOr(tip, -1) - HeightOr(pfork, -1)
    && (forall i | 0 <= i < |v| :: v[i] == tip.Ancestor(tip.nHeight - i))
    && |w| == pindexNew.nHeight - HeightOr(pfork, -1)
    && (forall i | 0 <= i < |w| :: w[i] == pindexNew.Ancestor(HeightOr(pfork, -1) + 1 + i))
  }

  lemma DisconnectPlan(index: set<CBlockIndex>, g: nat, tip: CBlockIndex?, pindexNew: CBlockIndex, pfork: CBlockIndex?,
                       v: seq<CBlockIndex>, w: seq<CBlockIndex>, i: nat)
    requires Tree(index, g) && pindexNew in index && (tip != null ==> tip in index)
    requires IsPlan(tip, pindexNew, pfork, v, w) && i < |v|
    ensures v[i] in index && tip.Descends(v[i]) && !pindexNew.Descends(v[i]) && v[i].nHeight > 0
    ensures i == 0 ==> v[i] == tip
    ensures v[i].pprev == if i + 1 < |v| then v[i + 1] else pfork
  {
    hide CBlockIndex.Ancestor, CBlockIndex.Linked, Tree;
    var h := tip.nHeight - i;
    AncestorInTree(index, g, tip, h);
    ParentOfAncestor(tip, h);
    AncestorSelf(tip);
  }

  lemma ConnectPlan(index: set<CBlockIndex>, g: nat, tip: CBlockIndex?, pindexNew: CBlockIndex, pfork: CBlockIndex?,
                    v: seq<CBlockIndex>, w: seq<CBlockIndex>, i: nat)
    requires Tree(index, g) && pindexNew in index && (tip != null ==> tip in index)
    requires IsPlan(tip, pindexNew, pfork, v, w) && i < |w|
    ensures w[i] in index && pindexNew.Descends(w[i]) && w[i].nHeight == HeightOr(pfork, -1) + 1 + i
    ensures tip != null ==> !tip.Descends(w[i])
    ensures i == |w| - 1 ==> w[i] == pindexNew
    ensures w[i].pprev == if i == 0 then pfork else w[i - 1]
  {
    hide CBlockIndex.Ancestor, CBlockIndex.Linked, Tree;
    var h := HeightOr(pfork, -1) + 1 + i;
    AncestorSelf(pindexNew);
    AncestorInTree(index, g, pindexNew, h);
    RootIsAtZero(w[i]);
    if h > 0 { ParentOfAncestor(pindexNew, h); }
  }

  lemma PlanIsLine(index: set<CBlockIndex>, g: nat, tip: CBlockIndex?, pindexNew: CBlockIndex, pfork: CBlockIndex?,
                   v: seq<CBlockIndex>, w: seq<CBlockIndex>)
    requires Tree(index, g) && pindexNew in index && (tip != null ==> tip in index)
    requires IsPlan(tip, pindexNew, pfork, v, w)
    ensures IsLine(w, g) && forall b | b in w :: b in index
    ensures w != [] ==> w[0].pprev == pfork && w[|w| - 1] == pindexNew
  {
    hide CBlockIndex.Ancestor, CBlockIndex.Linked, IsPlan;
    forall i | 0 <= i < |w|
      ensures w[i] in index && w[i].nHeight == HeightOr(pfork, -1) + 1 + i
      ensures 0 < i ==> w[i].pprev == w[i - 1]
    {
      ConnectPlan(index, g, tip, pindexNew, pfork, v, w, i);
    }
    forall b | b in w ensures b.Linked() && Placed(b, g) && (b.pprev != null ==> b.pprev.Linked()) {
      RootIsAtZero(b);
    }
    if w != [] {
      ConnectPlan(index, g, tip, pindexNew, pfork, v, w, 0);
      ConnectPlan(index, g, tip, pindexNew, pfork, v, w, |w| - 1);
    }
  }

  /** Up to the fork the two branches have the same links. */
  lemma SwitchAtFork(index: set<CBlockIndex>, tip: CBlockIndex?, pindexNew: CBlockIndex, pfork: CBlockIndex?)
    requires ForkOf(tip, pindexNew, pfork)
    requires NextFollows(index, tip, HeightOr(pfork, -1))
    ensures NextFollows(index, pindexNew, HeightOr(pfork, -1))
  {
    if pfork != null {
      forall b | b in index ensures b.pnext == NextBelow(pindexNew, pfork.nHeight, b) {
        hide NextBelow, CBlockIndex.Linked, CBlockIndex.Ancestor;
        NextBelowFork(tip, pindexNew, pfork, b);
      }
    }
  }

  /** Every block of the new branch is newly connected or was on the old branch. */
  lemma NewBranchIsCovered(tip: CBlockIndex?, pindexNew: CBlockIndex, pfork: CBlockIndex?, v: seq<CBlockIndex>, w: seq<CBlockIndex>, a: CBlockIndex)
    requires IsPlan(tip, pindexNew, pfork, v, w)
    requires pindexNew.Descends(a)
    ensures a in w || (tip != null && tip.Descends(a))
  {
    hide CBlockIndex.Ancestor, CBlockIndex.Linked;
    if pfork != null && a.nHeight <= pfork.nHeight {
      AncestorOfAncestor(tip, pfork.nHeight, a.nHeight);
      AncestorOfAncestor(pindexNew, pfork.nHeight, a.nHeight);
    } else {
      assert w[a.nHeight - HeightOr(pfork, -1) - 1] == a;
    }
  }

  lemma BranchTakesOver(index: set<CBlockIndex>, tip: CBlockIndex?, pindexNew: CBlockIndex, pfork: CBlockIndex?,
                        v: seq<CBlockIndex>, w: seq<CBlockIndex>)
    requires IsPlan(tip, pindexNew, pfork, v, w)
    requires forall b | b in w :: Applied(b)
    requires tip != null ==> BranchApplied(index, tip)
    ensures BranchApplied(index, pindexNew)
  {
    hide IsPlan, Applied;
    forall a | a in index && pindexNew.Descends(a) ensures Applied(a) {
      NewBranchIsCovered(tip, pindexNew, pfork, v, w, a);
    }
  }

  lemma ForkApplied(index: set<CBlockIndex>, g: nat, tip: CBlockIndex?, pindexNew: CBlockIndex, pfork: CBlockIndex?,
                    v: seq<CBlockIndex>, w: seq<CBlockIndex>)
    requires Tree(index, g) && (tip != null ==> tip in index && BranchApplied(index, tip)) && IsPlan(tip, pindexNew, pfork, v, w)
    ensures pfork != null ==> pfork.nMoneySupply == Supply(pfork)
  {
    hide Supply;
    if pfork != null { AncestorInTree(index, g, tip, pfork.nHeight); }
  }

  lemma OffBranchHasNoNext(index: set<CBlockIndex>, tip: CBlockIndex?, b: CBlockIndex)
    requires NextFollows(index, tip, HeightOr(tip, -1)) && b in index
    requires tip != null ==> !tip.Descends(b)
    ensures b.pnext == null
  {
  }

  lemma EmptyPlan(tip: CBlockIndex?, pindexNew: CBlockIndex, pfork: CBlockIndex?, v: seq<CBlockIndex>, w: seq<CBlockIndex>)
    requires IsPlan(tip, pindexNew, pfork, v, w)
    ensures v == [] ==> tip == pfork
    ensures w == [] ==> pfork == pindexNew
  {
    hide CBlockIndex.Ancestor, CBlockIndex.Linked;
    AncestorSelf(pindexNew);
    if tip != null { AncestorSelf(tip); }
  }

  /** The view is at block b. */
  ghost predicate At(view: CCoinsViewCache, b: CBlockIndex?)
    requires view.Stacked()
    reads view.repr
  {
    view.pindexTip == b == view.Tip() && view.Utxo() == Replay(b)
  }

  class CChainState {
    const hashGenesisBlock: nat
    const pcoinsTip: CCoinsViewCache
    var mapBlockIndex: set<CBlockIndex>
    /** Candidates for the tip. */
    var setBlockIndexValid: set<CBlockIndex>
    var pindexBest: CBlockIndex?
    /** The memo of FindBlockByHeight. */
    var pblockindexFBBHLast: CBlockIndex?

    ghost predicate TreeOk()
      reads this
    {
      && pcoinsTip.Stacked() && this !in pcoinsTip.repr
      && Tree(mapBlockIndex, hashGenesisBlock) && setBlockIndexValid <= mapBlockIndex
      && (pindexBest != null ==> pindexBest in mapBlockIndex)
    }

    /** pcoinsTip holds the replay of the active chain, whose blocks can all be undone. */
    ghost predicate CoinsOk()
      requires pcoinsTip.Stacked()
      reads this, pcoinsTip.repr, mapBlockIndex`undo, mapBlockIndex`nMoneySupply
    {
      && pcoinsTip.Tip() == pindexBest && pcoinsTip.Utxo() == Replay(pindexBest)
      && AllRecordsOk(mapBlockIndex)
      && (pindexBest != null ==> BranchApplied(mapBlockIndex, pindexBest))
    }

    /** A block has an active successor exactly when it is a proper ancestor of the tip. */
    ghost predicate LinksOk()
      reads this, mapBlockIndex`pnext
    {
      && NextFollows(mapBlockIndex, pindexBest, HeightOr(pindexBest, -1))
      && (pblockindexFBBHLast != null ==>
            pindexBest != null && pblockindexFBBHLast.Linked() && pindexBest.Descends(pblockindexFBBHLast))
    }

    ghost predicate Valid()
      reads this, pcoinsTip.repr, mapBlockIndex
    {
      TreeOk() && CoinsOk() && LinksOk()
    }

    /** No BIP 30 exception that a move to pindexNew disconnects had replaced an unspent record. */
    ghost predicate CanLeave(pindexNew: CBlockIndex)
      reads this
    {
      pindexBest != null ==>
        forall b | b in mapBlockIndex && pindexBest.Descends(b) && !pindexNew.Descends(b) :: ExemptSafely(b)
    }

    constructor (hashGenesisBlock: nat, pcoinsTip: CCoinsViewCache)
      requires pcoinsTip.Stacked() && pcoinsTip.Utxo() == map[] && pcoinsTip.Tip() == null
      ensures Valid() && mapBlockIndex == {} && setBlockIndexValid == {} && pindexBest == null && pblockindexFBBHLast == null
      ensures this.hashGenesisBlock == hashGenesisBlock && this.pcoinsTip == pcoinsTip
    {
      this.hashGenesisBlock, this.pcoinsTip := hashGenesisBlock, pcoinsTip;
      mapBlockIndex, setBlockIndexValid := {}, {};
      pindexBest, pblockindexFBBHLast := null, null;
    }

    /** Disconnects in a view laid over pcoinsTip. */
    method DisconnectAll(view: CCoinsViewCache, v: seq<CBlockIndex>,
                         ghost pindexNew: CBlockIndex, ghost pfork: CBlockIndex?, ghost w: seq<CBlockIndex>)
      returns (ok: bool)
      requires TreeOk() && AllRecordsOk(mapBlockIndex) && pindexNew in mapBlockIndex && CanLeave(pindexNew)
      requires pindexBest != null ==> BranchApplied(mapBlockIndex, pindexBest)
      requires IsPlan(pindexBest, pindexNew, pfork, v, w)
      requires view.Stacked() && At(view, pindexBest)
      modifies view.repr
      ensures view.BaseUtxo() == old(view.BaseUtxo()) && view.BaseTip() == old(view.BaseTip())
      ensures ok ==> At(view, pfork) && UtxoOk(view.Utxo())
    {
      hide Overlay, UtxoOk, Replay, Undoable, CBlockIndex.Linked, CBlockIndex.Ancestor;
      forall i | 0 <= i < |v|
        ensures v[i].Linked() && v[i].pprev != null && v[i].pprev.Linked() && Undoable(v[i])
        ensures i == 0 ==> v[i] == pindexBest
        ensures i + 1 < |v| ==> v[i].pprev == v[i + 1]
      {
        DisconnectPlan(mapBlockIndex, hashGenesisBlock, pindexBest, pindexNew, pfork, v, w, i);
        BranchIsUndoable(mapBlockIndex, hashGenesisBlock, pindexBest, v[i]);
      }
      if pfork != null {
        BranchReplayIsOk(mapBlockIndex, hashGenesisBlock, pindexBest, pfork);
      }
      NothingIsOk();
      EmptyPlan(pindexBest, pindexNew, pfork, v, w);
      if v != [] {
        DisconnectPlan(mapBlockIndex, hashGenesisBlock, pindexBest, pindexNew, pfork, v, w, |v| - 1);
      }
      hide IsPlan, Tree;
      ok := DisconnectBranch(v, view);
    }

    /** Connects on top of the fork in the same view. */
    method ConnectAll(view: CCoinsViewCache, w: seq<CBlockIndex>,
                      ghost pindexNew: CBlockIndex, ghost pfork: CBlockIndex?, ghost v: seq<CBlockIndex>)
      returns (ok: bool, nDone: nat)
      requires TreeOk() && AllRecordsOk(mapBlockIndex) && pindexNew in mapBlockIndex
      requires IsPlan(pindexBest, pindexNew, pfork, v, w) && (pfork != null ==> pfork.nMoneySupply == Supply(pfork))
      requires view.Stacked() && At(view, pfork) && UtxoOk(view.Utxo())
      modifies view.repr, mapBlockIndex`undo, mapBlockIndex`nMoneySupply
      ensures view.BaseUtxo() == old(view.BaseUtxo()) && view.BaseTip() == old(view.BaseTip())
      ensures nDone <= |w| && (ok <==> nDone == |w|)
      ensures ok ==> forall b | b in w :: Applied(b)
      ensures AllRecordsOk(mapBlockIndex) && forall b | b in mapBlockIndex && old(Applied(b)) :: Applied(b)
      ensures ok ==> At(view, pindexNew)
    {
      hide Overlay, UtxoOk, Replay, Supply, IsLine, IsPlan, Tree, CBlockIndex.Linked, CBlockIndex.Ancestor, RecordOk, Applied;
      PlanIsLine(mapBlockIndex, hashGenesisBlock, pindexBest, pindexNew, pfork, v, w);
      EmptyPlan(pindexBest, pindexNew, pfork, v, w);
      ok, nDone := ConnectBranch(w, view, hashGenesisBlock);
      assert ok ==> w[..nDone] == w;
    }

    method UpdateLinks(v: seq<CBlockIndex>, w: seq<CBlockIndex>, pindexNew: CBlockIndex, ghost pfork: CBlockIndex?)
      requires TreeOk() && pindexNew in mapBlockIndex
      requires NextFollows(mapBlockIndex, pindexBest, HeightOr(pindexBest, -1))
      requires IsPlan(pindexBest, pindexNew, pfork, v, w)
      modifies mapBlockIndex`pnext
      ensures NextFollows(mapBlockIndex, pindexNew, pindexNew.nHeight)
    {
      hide NextFollows, CBlockIndex.Linked, CBlockIndex.Ancestor;
      UnlinkBranch(mapBlockIndex, hashGenesisBlock, v, pindexBest);
      SwitchAtFork(mapBlockIndex, pindexBest, pindexNew, pfork);
      LinkBranch(mapBlockIndex, hashGenesisBlock, w, pindexNew);
    }

    /** A failed block leaves the candidates; its branch was not active, so there is nothing
        to reorganise away from. */
    method InvalidBlockFound(pindex: CBlockIndex)
      requires TreeOk() && pindex in mapBlockIndex && pindex.pnext == null
      modifies this`setBlockIndexValid, pindex`fFailed
      ensures pindex.fFailed && setBlockIndexValid == old(setBlockIndexValid) - {pindex}
    {
      pindex.fFailed := true;
      setBlockIndexValid := setBlockIndexValid - {pindex};
      if pindex.pnext != null {
        assert false; // ConnectBestBlock
      }
    }

    /** Finds the fork and lists what to disconnect and what to connect. */
    method PlanReorg(tip: CBlockIndex?, pindexNew: CBlockIndex)
      returns (pfork: CBlockIndex?, v: seq<CBlockIndex>, w: seq<CBlockIndex>)
      requires TreeOk() && pindexNew in mapBlockIndex && (tip != null ==> tip in mapBlockIndex)
      ensures IsPlan(tip, pindexNew, pfork, v, w)
    {
      hide CBlockIndex.Linked, CBlockIndex.Ancestor;
      if tip != null {
        OneRoot(mapBlockIndex, hashGenesisBlock, tip, pindexNew);
      }
      pfork := FindFork(tip, pindexNew);
      v := CollectBranch(tip, pfork);
      var back := CollectBranch(pindexNew, pfork);
      w := seq(|back|, i requires 0 <= i < |back| => back[|back| - 1 - i]);
    }

    /** Disconnects and connects by the plan, all inside `view`. */
    method RunPlan(view: CCoinsViewCache, pindexNew: CBlockIndex, ghost pfork: CBlockIndex?, v: seq<CBlockIndex>, w: seq<CBlockIndex>)
      returns (ok: bool, nDone: nat)
      requires TreeOk() && AllRecordsOk(mapBlockIndex) && pindexNew in mapBlockIndex && CanLeave(pindexNew)
      requires pindexBest != null ==> BranchApplied(mapBlockIndex, pindexBest)
      requires IsPlan(pindexBest, pindexNew, pfork, v, w)
      requires view.Stacked() && At(view, pindexBest)
      modifies view.repr, mapBlockIndex`undo, mapBlockIndex`nMoneySupply
      ensures view.BaseUtxo() == old(view.BaseUtxo()) && view.BaseTip() == old(view.BaseTip())
      ensures AllRecordsOk(mapBlockIndex) && (pindexBest != null ==> BranchApplied(mapBlockIndex, pindexBest))
      ensures nDone <= |w| && (ok ==> nDone == |w|)
      ensures ok ==> At(view, pindexNew)
      ensures ok ==> BranchApplied(mapBlockIndex, pindexNew)
    {
      hide Overlay, UtxoOk, CBlockIndex.Descends, AllRecordsOk, Applied, IsPlan, Tree, At;
      nDone := 0;
      ok := DisconnectAll(view, v, pindexNew, pfork, w);
      if ok {
        ForkApplied(mapBlockIndex, hashGenesisBlock, pindexBest, pindexNew, pfork, v, w);
        ok, nDone := ConnectAll(view, w, pindexNew, pfork, v);
        if ok {
          BranchTakesOver(mapBlockIndex, pindexBest, pindexNew, pfork, v, w);
        }
      }
    }

    /** A fresh cache layer over pcoinsTip, its tip already read. */
    method OpenLayer() returns (view: CCoinsViewCache, tip: CBlockIndex?)
      requires TreeOk() && CoinsOk()
      modifies pcoinsTip.repr
      ensures fresh(view) && view.Stacked() && view.base == OnCache(pcoinsTip) && view.repr == {view} + pcoinsTip.repr
      ensures tip == pindexBest && At(view, pindexBest)
      ensures CoinsOk() && pcoinsTip.Utxo() == old(pcoinsTip.Utxo())
    {
      hide Overlay, Replay, BranchApplied, AllRecordsOk, Tree;
      view := new CCoinsViewCache(OnCache(pcoinsTip));
      tip := view.GetBestBlock();
    }

    /** Flushes the layer into pcoinsTip, which cannot fail. */
    method CloseLayer(view: CCoinsViewCache, pindexNew: CBlockIndex) returns (ok: bool)
      requires TreeOk() && this !in view.repr && AllRecordsOk(mapBlockIndex) && BranchApplied(mapBlockIndex, pindexNew)
      requires view.Stacked() && view.base == OnCache(pcoinsTip) && At(view, pindexNew)
      modifies view.repr
      ensures ok && TreeOk() && At(pcoinsTip, pindexNew)
      ensures AllRecordsOk(mapBlockIndex) && BranchApplied(mapBlockIndex, pindexNew)
    {
      hide Overlay, Replay, AllRecordsOk, BranchApplied, Tree;
      ok := view.Flush();
    }

    /** Moves the coins to pindexNew's branch in a cache layer that is flushed only when all
        of it has succeeded. Otherwise the first `nDone` blocks of `w` had been connected. */
    method MoveCoins(pindexNew: CBlockIndex)
      returns (ok: bool, nDone: nat, ghost pfork: CBlockIndex?, v: seq<CBlockIndex>, w: seq<CBlockIndex>)
      requires TreeOk() && CoinsOk() && pindexNew in mapBlockIndex && CanLeave(pindexNew)
      modifies pcoinsTip.repr, mapBlockIndex`undo, mapBlockIndex`nMoneySupply
      ensures IsPlan(pindexBest, pindexNew, pfork, v, w) && nDone <= |w|
      ensures AllRecordsOk(mapBlockIndex)
      ensures ok ==> At(pcoinsTip, pindexNew) && BranchApplied(mapBlockIndex, pindexNew)
      ensures !ok ==> CoinsOk() && pcoinsTip.Utxo() == old(pcoinsTip.Utxo())
    {
      hide Overlay, Replay, CBlockIndex.Descends, IsPlan, BranchApplied, AllRecordsOk, Tree, CanLeave;
      var view, tip := OpenLayer();
      pfork, v, w := PlanReorg(tip, pindexNew);
      ok, nDone := RunPlan(view, pindexNew, pfork, v, w);
      if ok {
        ok := CloseLayer(view, pindexNew);
      }
    }

    /** Saves pcoinsTip if it is time to; nothing else changes. */
    method Save(pindexNew: CBlockIndex) returns (ok: bool)
      requires TreeOk() && At(pcoinsTip, pindexNew) && LinksOk()
      requires BranchApplied(mapBlockIndex, pindexNew) && AllRecordsOk(mapBlockIndex)
      modifies pcoinsTip.repr
      ensures TreeOk() && LinksOk() && pcoinsTip.Tip() == pindexNew && pcoinsTip.Utxo() == Replay(pindexNew)
      ensures BranchApplied(mapBlockIndex, pindexNew) && AllRecordsOk(mapBlockIndex)
    {
      hide Overlay, Replay, AllRecordsOk, BranchApplied, Tree, NextFollows;
      ok := true;
      var fSave: bool := *; // not in the initial download, or the cache is full
      if fSave {
        ok := *; // CheckDiskSpace
        if ok {
          ok := pcoinsTip.Flush();
        }
      }
    }

    /** Saves pcoinsTip if it is time to, then moves the links and the tip. */
    method Install(pindexNew: CBlockIndex, v: seq<CBlockIndex>, w: seq<CBlockIndex>, ghost pfork: CBlockIndex?)
      returns (ok: bool)
      requires TreeOk() && LinksOk() && pindexNew in mapBlockIndex && IsPlan(pindexBest, pindexNew, pfork, v, w)
      requires At(pcoinsTip, pindexNew) && BranchApplied(mapBlockIndex, pindexNew) && AllRecordsOk(mapBlockIndex)
      modifies this`pindexBest, this`pblockindexFBBHLast, pcoinsTip.repr, mapBlockIndex`pnext
      ensures pcoinsTip.Tip() == pindexNew && pcoinsTip.Utxo() == Replay(pindexNew)
      ensures if ok then Valid() && pindexBest == pindexNew else TreeOk() && pindexBest == old(pindexBest)
    {
      hide Overlay, Replay, CBlockIndex.Descends, CBlockIndex.Linked, AllRecordsOk, BranchApplied, IsPlan, Tree, NextFollows;
      ok := Save(pindexNew);
      if !ok {
        return;
      }
      UpdateLinks(v, w, pindexNew, pfork);
      pindexBest := pindexNew;
      pblockindexFBBHLast := null;
      ok := true;
    }

    /** Makes pindexNew the tip. `fFlushed` says whether the new state reached pcoinsTip; only
        a failure to save it further can still stop the change of tip then. */
    method SetBestChain(pindexNew: CBlockIndex) returns (ok: bool, ghost fFlushed: bool)
      requires Valid() && pindexNew in mapBlockIndex && CanLeave(pindexNew)
      modifies this`setBlockIndexValid, this`pindexBest, this`pblockindexFBBHLast, pcoinsTip.repr, mapBlockIndex
      ensures TreeOk()
      ensures ok ==> fFlushed && Valid() && pindexBest == pindexNew && pcoinsTip.Utxo() == Replay(pindexNew)
      ensures fFlushed ==> pcoinsTip.Tip() == pindexNew && pcoinsTip.Utxo() == Replay(pindexNew)
      ensures !fFlushed ==> Valid() && pcoinsTip.Utxo() == old(pcoinsTip.Utxo())
      ensures !ok ==> pindexBest == old(pindexBest)
      ensures setBlockIndexValid <= old(setBlockIndexValid)
      ensures forall b | b in mapBlockIndex ::
                || (b.fFailed == old(b.fFailed) && (b in setBlockIndexValid <==> b in old(setBlockIndexValid)))
                || (!ok && b.fFailed && b !in setBlockIndexValid && pindexNew.Descends(b)
                      && (pindexBest != null ==> !pindexBest.Descends(b)))
    {
      hide Overlay, UtxoOk, Replay, CBlockIndex.Descends, CBlockIndex.Linked, AllRecordsOk, Applied, BranchApplied, IsPlan, Tree, NextFollows;
      var nDone, v, w;
      ghost var pfork;
      ok, nDone, pfork, v, w := MoveCoins(pindexNew);
      fFlushed := ok;
      if ok {
        ok := Install(pindexNew, v, w, pfork);
      } else {
        var fInvalid: bool := *; // the block broke a rule; otherwise the disk failed
        if nDone < |w| && fInvalid {
          ConnectPlan(mapBlockIndex, hashGenesisBlock, pindexBest, pindexNew, pfork, v, w, nDone);
          OffBranchHasNoNext(mapBlockIndex, pindexBest, w[nDone]);
          InvalidBlockFound(w[nDone]);
        }
      }
    }
  }

  /** In every state the tip's money supply is the value of the coins and of the records that
      were replaced, and at most what its chain minted. */
  lemma SupplyOfTip(cs: CChainState)
    requires cs.Valid() && cs.pindexBest != null
    ensures
      var tip := cs.pindexBest;
      && tip.nMoneySupply == Total(cs.pcoinsTip.Utxo()) + LostUpTo(tip) && tip.nMoneySupply <= MintedUpTo(tip)
      && ((forall b | b in cs.mapBlockIndex && tip.Descends(b) :: ExemptSafely(b)) ==> tip.nMoneySupply == Total(cs.pcoinsTip.Utxo()))
  {
    var tip := cs.pindexBest;
    AncestorSelf(tip);
    forall h | 0 < h <= tip.nHeight ensures tip.Ancestor(h) in cs.mapBlockIndex && tip.Descends(tip.Ancestor(h)) && Sound(tip.Ancestor(h)) {
      AncestorInTree(cs.mapBlockIndex, cs.hashGenesisBlock, tip, h);
      RootIsAtZero(tip.Ancestor(h));
      assert Applied(tip.Ancestor(h));
    }
    assert Applied(tip);
    SupplyOfBranch(tip);
    hide Supply, Replay, Total, LostUpTo, MintedUpTo, Sound, ExemptSafely, UtxoOk;
  }
}
