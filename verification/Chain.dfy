/** The active chain and its reorganisation (main.cpp, SetBestChain). */
module Chain {
  import opened UtxoSet
  import opened MoneySupply
  import opened BlockTree
  import opened CoinsViews
  import opened Validation

  /** The unspent set after all blocks up to b; the genesis block adds nothing. */
  ghost function Replay(b: CBlockIndex?): Utxo
    decreases if b == null then 0 else b.nHeight + 1
  {
    if b == null || b.pprev == null || b.nHeight <= b.pprev.nHeight then map[]
    else ApplyBlock(Replay(b.pprev), b.vtx, b.nHeight)
  }

  /** The money supply after all blocks up to b: what they pay out less what they take in. */
  ghost function Supply(b: CBlockIndex): int
    decreases b.nHeight
  {
    if b.pprev == null || b.nHeight <= b.pprev.nHeight then 0
    else Supply(b.pprev) + BlockValueOut(b.vtx, |b.vtx|) - BlockValueIn(Replay(b.pprev), b.vtx, b.nHeight, |b.vtx|)
  }

  /** Undo data, when there is any, is that of connecting the block to its parent's state; a
      root has no supply. */
  ghost predicate RecordOk(b: CBlockIndex)
    reads b`undo, b`nMoneySupply
  {
    && (b.undo.Some? ==> b.pprev != null && b.undo.value == BlockUndo(Replay(b.pprev), b.vtx, b.nHeight, |b.vtx|))
    && (b.pprev == null ==> b.nMoneySupply == 0)
  }

  /** A block that passes on top of its parent's state. */
  ghost predicate Sound(b: CBlockIndex) {
    && b.Linked() && b.pprev != null
    && BlockAccepted(Replay(b.pprev), b.vtx, b.nHeight, b.nBits, b.hash)
  }

  /** What connecting a block established and disconnecting it relies on. */
  ghost predicate Applied(b: CBlockIndex)
    reads b`undo, b`nMoneySupply
  {
    && (b.pprev != null ==> Sound(b) && b.undo.Some?)
    && b.nMoneySupply == Supply(b)
  }

  lemma {:induction false} ReplayIsOk(b: CBlockIndex)
    requires b.Linked()
    requires forall h | 0 < h <= b.nHeight :: BlockOk(b.Ancestor(h).vtx)
    ensures UtxoOk(Replay(b))
    decreases b.nHeight
  {
    if b.pprev != null {
      assert b.Ancestor(b.nHeight) == b;
      forall h | 0 < h <= b.pprev.nHeight ensures BlockOk(b.pprev.Ancestor(h).vtx) {
        assert b.Ancestor(h) == b.pprev.Ancestor(h);
      }
      ReplayIsOk(b.pprev);
      ApplyTxsKeepsOk(Replay(b.pprev), b.vtx, b.nHeight, |b.vtx|);
    }
  }

  /** The block two branches last share. */
  method FindFork(tip: CBlockIndex?, pindexNew: CBlockIndex) returns (pfork: CBlockIndex?)
    requires pindexNew.Linked()
    requires tip != null ==> tip.Linked() && tip.Ancestor(0) == pindexNew.Ancestor(0)
    ensures pfork == null <==> tip == null
    ensures pfork != null ==> pfork.Linked() && tip.Descends(pfork) && pindexNew.Descends(pfork)
    ensures pfork != null ==>
              forall h: nat | pfork.nHeight < h <= tip.nHeight && h <= pindexNew.nHeight :: tip.Ancestor(h) != pindexNew.Ancestor(h)
  {
    pfork := tip;
    var plonger: CBlockIndex := pindexNew;
    while pfork != null && pfork != plonger
      invariant pfork == null <==> tip == null
      invariant plonger.Linked() && pindexNew.Descends(plonger)
      invariant pfork != null ==> pfork.Linked() && tip.Descends(pfork)
      invariant pfork != null ==>
                  forall h: nat | h <= tip.nHeight && h <= pindexNew.nHeight && tip.Ancestor(h) == pindexNew.Ancestor(h)
                    :: h <= pfork.nHeight && h <= plonger.nHeight
      decreases if pfork == null then 0 else pfork.nHeight + 1
    {
      while plonger.nHeight > pfork.nHeight
        invariant plonger.Linked() && pindexNew.Descends(plonger)
        invariant forall h: nat | h <= tip.nHeight && h <= pindexNew.nHeight && tip.Ancestor(h) == pindexNew.Ancestor(h)
                    :: h <= pfork.nHeight && h <= plonger.nHeight
        decreases plonger.nHeight
      {
        ParentOfAncestor(pindexNew, plonger.nHeight);
        plonger := plonger.pprev;
      }
      if pfork == plonger {
        break;
      }
      if pfork.nHeight > 0 {
        ParentOfAncestor(tip, pfork.nHeight);
      }
      pfork := pfork.pprev;
    }
  }

  /** The blocks from `from` back to, and without, `pfork`, newest first. */
  method CollectBranch(from: CBlockIndex?, pfork: CBlockIndex?) returns (v: seq<CBlockIndex>)
    requires from != null ==> from.Linked()
    requires pfork != null ==> from != null && pfork.Linked() && from.Descends(pfork)
    ensures |v| == (if from == null then 0 else from.nHeight + 1) - (if pfork == null then 0 else pfork.nHeight + 1)
    ensures forall i | 0 <= i < |v| :: v[i] == from.Ancestor(from.nHeight - i)
  {
    v := [];
    var pindex := from;
    while pindex != pfork
      invariant pindex != null ==> pindex.Linked() && from != null && from.Descends(pindex)
      invariant pfork != null ==> pindex != null && pfork.nHeight <= pindex.nHeight
      invariant |v| == (if from == null then 0 else from.nHeight + 1) - (if pindex == null then 0 else pindex.nHeight + 1)
      invariant forall i | 0 <= i < |v| :: v[i] == from.Ancestor(from.nHeight - i)
      decreases if pindex == null then 0 else pindex.nHeight + 1
    {
      v := v + [pindex];
      if pindex.nHeight > 0 {
        ParentOfAncestor(from, pindex.nHeight);
      }
      pindex := pindex.pprev;
    }
  }

  // ---------- one branch down, one branch up ----------

  /** Connecting the block to its parent's state replaces no unspent record. The BIP 30 test
      makes sure of it, except for the blocks exempt from it. */
  ghost predicate ReplacesNothing(b: CBlockIndex) {
    b.pprev != null ==> NoOverwrites(Replay(b.pprev), b.vtx, b.nHeight, |b.vtx|)
  }

  ghost predicate ExemptSafely(b: CBlockIndex) {
    Bip30Exempt(b.nHeight, b.hash) ==> ReplacesNothing(b)
  }

  /** A connected block with its undo data. */
  ghost predicate Connected(b: CBlockIndex)
    reads b`undo, b`nMoneySupply
  {
    b.Linked() && b.pprev != null && UtxoOk(Replay(b.pprev)) && Applied(b) && RecordOk(b)
  }

  /** One whose undo is exact. */
  ghost predicate Undoable(b: CBlockIndex)
    reads b`undo, b`nMoneySupply
  {
    Connected(b) && ReplacesNothing(b)
  }

  lemma UndoGivesParentState(b: CBlockIndex)
    requires Connected(b)
    ensures UndoBlock(Replay(b), b.vtx, b.nHeight, b.undo.value) == Some(Replay(b.pprev)) <==> ReplacesNothing(b)
  {
    PassingMeansReady(Replay(b.pprev), b.vtx, b.nHeight, |b.vtx|);
    UndoBlockInvertsApplyBlock(Replay(b.pprev), b.vtx, b.nHeight);
  }

  method DisconnectOne(b: CBlockIndex, view: CCoinsViewCache) returns (ok: bool)
    requires view.Stacked() && Undoable(b) && view.Tip() == b && view.Utxo() == Replay(b)
    modifies view.repr
    ensures view.BaseUtxo() == old(view.BaseUtxo()) && view.BaseTip() == old(view.BaseTip())
    ensures b.pprev != null && b.pprev.Linked()
    ensures ok ==> view.Tip() == view.pindexTip == b.pprev && view.Utxo() == Replay(b.pprev)
  {
    hide Overlay, Replay, UndoBlock;
    UndoGivesParentState(b);
    hide UtxoOk, BlockOk, BlockPasses, NoDuplicates, NoOverwrites;
    ok := *; // ReadFromDisk
    if ok {
      var fClean;
      ok, fClean := DisconnectBlock(b, view, false);
    }
  }

  method DisconnectBranch(v: seq<CBlockIndex>, view: CCoinsViewCache) returns (ok: bool)
    requires forall b | b in v :: b.Linked() && b.pprev != null && b.pprev.Linked()
    requires view.Stacked() && forall b | b in v :: Undoable(b)
    requires forall i | 0 <= i < |v| - 1 :: v[i].pprev == v[i + 1]
    requires v != [] ==> view.Tip() == v[0] && view.Utxo() == Replay(v[0])
    modifies view.repr
    ensures view.BaseUtxo() == old(view.BaseUtxo()) && view.BaseTip() == old(view.BaseTip())
    ensures v == [] ==> ok && view.Utxo() == old(view.Utxo()) && view.pindexTip == old(view.pindexTip)
    ensures ok && v != [] ==>
              view.Tip() == view.pindexTip == v[|v| - 1].pprev && view.Utxo() == Replay(v[|v| - 1].pprev)
  {
    hide Overlay, Replay, UtxoOk, BlockOk, BlockPasses, NoDuplicates, ReplacesNothing;
    for i := 0 to |v|
      invariant view.BaseUtxo() == old(view.BaseUtxo()) && view.BaseTip() == old(view.BaseTip())
      invariant forall b | b in v :: Undoable(b)
      invariant i == 0 ==> view.Utxo() == old(view.Utxo()) && view.Tip() == old(view.Tip()) && view.pindexTip == old(view.pindexTip)
      invariant i > 0 ==> view.Tip() == view.pindexTip == v[i - 1].pprev && view.Utxo() == Replay(v[i - 1].pprev)
    {
      ok := DisconnectOne(v[i], view);
      if !ok {
        return;
      }
    }
    ok := true;
  }

  /** A block whose genesis test agrees with its place in the tree. */
  ghost predicate Placed(b: CBlockIndex, hashGenesisBlock: nat) {
    b.Linked() && (b.pprev == null <==> b.hash == hashGenesisBlock)
  }

  lemma ReplayStep(b: CBlockIndex)
    requires b.Linked() && UtxoOk(Replay(b.pprev))
    requires b.pprev != null ==> BlockOk(b.vtx)
    ensures UtxoOk(Replay(b))
  {
    if b.pprev != null {
      ApplyTxsKeepsOk(Replay(b.pprev), b.vtx, b.nHeight, |b.vtx|);
    }
  }

  method ConnectOne(b: CBlockIndex, view: CCoinsViewCache, hashGenesisBlock: nat) returns (ok: bool)
    requires Placed(b, hashGenesisBlock) && (b.pprev != null ==> b.pprev.Linked())
    requires view.Stacked() && RecordOk(b) && (b.pprev != null ==> b.pprev.nMoneySupply == Supply(b.pprev))
    requires view.Tip() == b.pprev && view.Utxo() == Replay(b.pprev) && UtxoOk(view.Utxo())
    modifies view.repr, b`undo, b`nMoneySupply
    ensures view.BaseUtxo() == old(view.BaseUtxo()) && view.BaseTip() == old(view.BaseTip())
    ensures RecordOk(b) && (old(Applied(b)) ==> Applied(b))
    ensures ok ==> Applied(b) && b.nMoneySupply == Supply(b)
    ensures ok ==> view.Tip() == view.pindexTip == b && view.Utxo() == Replay(b) && UtxoOk(view.Utxo())
  {
    hide Overlay, UtxoOk, BlockOk, BlockPasses, NoDuplicates;
    ok := *; // ReadFromDisk
    if ok {
      ghost var fOutside;
      ok, fOutside := ConnectBlock(b, view, hashGenesisBlock);
      if ok {
        ReplayStep(b);
      }
    }
  }

  /** Blocks to connect, each on top of the one before. */
  ghost predicate IsLine(w: seq<CBlockIndex>, hashGenesisBlock: nat) {
    && (forall b | b in w :: b.Linked() && Placed(b, hashGenesisBlock) && (b.pprev != null ==> b.pprev.Linked()))
    && (forall i | 0 <= i < |w| - 1 :: w[i + 1].pprev == w[i])
    && (forall i, j | 0 <= i < j < |w| :: w[i] != w[j])
    && (w != [] ==> w[0].pprev !in w)
  }

  /** The state below block i of a branch: its parent's. */
  ghost predicate ReadyFor(w: seq<CBlockIndex>, i: nat, view: CCoinsViewCache)
    requires view.Stacked() && i < |w|
    reads view.repr, w[i].pprev
  {
    && view.Tip() == w[i].pprev && view.Utxo() == Replay(w[i].pprev) && UtxoOk(view.Utxo())
    && (w[i].pprev != null ==> w[i].pprev.nMoneySupply == Supply(w[i].pprev))
  }

  lemma LineAt(w: seq<CBlockIndex>, hashGenesisBlock: nat, i: nat)
    requires IsLine(w, hashGenesisBlock) && i < |w|
    ensures w[i] in w && Placed(w[i], hashGenesisBlock) && (w[i].pprev != null ==> w[i].pprev.Linked())
    ensures w[i].pprev == if i == 0 then w[0].pprev else w[i - 1]
  {
  }

  /** Connects block i of a branch; the others keep what they have. */
  method ConnectNext(w: seq<CBlockIndex>, i: nat, view: CCoinsViewCache, hashGenesisBlock: nat) returns (ok: bool)
    requires i < |w| && IsLine(w, hashGenesisBlock) && forall b | b in w :: RecordOk(b)
    requires view.Stacked() && ReadyFor(w, i, view)
    modifies view.repr, {w[i]}`undo, {w[i]}`nMoneySupply
    ensures view.BaseUtxo() == old(view.BaseUtxo()) && view.BaseTip() == old(view.BaseTip())
    ensures forall b | b in w :: RecordOk(b) && (old(Applied(b)) ==> Applied(b))
    ensures ok ==> Applied(w[i]) && view.Tip() == view.pindexTip == w[i] && view.Utxo() == Replay(w[i])
    ensures ok && i + 1 < |w| ==> ReadyFor(w, i + 1, view)
  {
    hide Overlay, Replay, UtxoOk, Applied, RecordOk, IsLine, Placed, Supply, CBlockIndex.Linked;
    LineAt(w, hashGenesisBlock, i);
    ok := ConnectOne(w[i], view, hashGenesisBlock);
    if i + 1 < |w| { LineAt(w, hashGenesisBlock, i + 1); }
  }

  /** Connects the blocks of a branch, oldest first; `nDone` of them went through. */
  method ConnectBranch(w: seq<CBlockIndex>, view: CCoinsViewCache, hashGenesisBlock: nat) returns (ok: bool, nDone: nat)
    requires IsLine(w, hashGenesisBlock)
    requires view.Stacked() && (forall b | b in w :: RecordOk(b)) && (w != [] ==> ReadyFor(w, 0, view))
    modifies view.repr, set b | b in w :: b`undo, set b | b in w :: b`nMoneySupply
    ensures view.BaseUtxo() == old(view.BaseUtxo()) && view.BaseTip() == old(view.BaseTip())
    ensures w == [] ==> ok && view.Utxo() == old(view.Utxo()) && view.pindexTip == old(view.pindexTip)
    ensures forall b | b in w :: RecordOk(b) && (old(Applied(b)) ==> Applied(b))
    ensures nDone <= |w| && (ok <==> nDone == |w|)
    ensures forall b | b in w[..nDone] :: Applied(b)
    ensures ok && w != [] ==>
              view.Tip() == view.pindexTip == w[|w| - 1] && view.Utxo() == Replay(w[|w| - 1])
  {
    hide Overlay, Replay, Applied, RecordOk, IsLine, ReadyFor;
    nDone := 0;
    while nDone < |w|
      invariant 0 <= nDone <= |w|
      invariant view.BaseUtxo() == old(view.BaseUtxo()) && view.BaseTip() == old(view.BaseTip())
      invariant forall b | b in w :: RecordOk(b) && (old(Applied(b)) ==> Applied(b))
      invariant forall b | b in w[..nDone] :: Applied(b)
      invariant nDone < |w| ==> ReadyFor(w, nDone, view)
      invariant nDone == 0 ==> view.Utxo() == old(view.Utxo()) && view.pindexTip == old(view.pindexTip)
      invariant nDone > 0 ==> view.Tip() == view.pindexTip == w[nDone - 1] && view.Utxo() == Replay(w[nDone - 1])
    {
      assert w[nDone] in w && w[..nDone + 1] == w[..nDone] + [w[nDone]];
      ok := ConnectNext(w, nDone, view, hashGenesisBlock);
      if !ok {
        return;
      }
      nDone := nDone + 1;
    }
    ok := true;
  }

  // ---------- the money supply ----------

  /** The value of the records replaced on the way to b. */
  ghost function LostUpTo(b: CBlockIndex): int
    decreases b.nHeight
  {
    if b.pprev == null || b.nHeight <= b.pprev.nHeight then 0
    else LostUpTo(b.pprev) + BlockLost(Replay(b.pprev), b.vtx, b.nHeight, |b.vtx|)
  }

  ghost function MintedUpTo(b: CBlockIndex): nat
    decreases b.nHeight
  {
    if b.pprev == null || b.nHeight <= b.pprev.nHeight then 0 else MintedUpTo(b.pprev) + TargetGetMint(b.nBits)
  }

  /** One block's part in it. */
  lemma SupplyStep(b: CBlockIndex)
    requires Sound(b) && UtxoOk(Replay(b.pprev))
    requires Supply(b.pprev) == Total(Replay(b.pprev)) + LostUpTo(b.pprev) && Supply(b.pprev) <= MintedUpTo(b.pprev)
    ensures Supply(b) == Total(Replay(b)) + LostUpTo(b) && Supply(b) <= MintedUpTo(b)
    ensures ExemptSafely(b) ==> LostUpTo(b) == LostUpTo(b.pprev)
  {
    var u := Replay(b.pprev);
    SupplyStaysTotal(u, b.vtx, b.nHeight);
    GrowthIsAtMostMint(u, b.vtx, b.nHeight, b.nBits);
    if ExemptSafely(b) {
      if NoDuplicates(u, b.vtx) { NoDuplicatesMeansNoOverwrites(u, b.vtx, b.nHeight, |b.vtx|); }
      NothingLost(u, b.vtx, b.nHeight, |b.vtx|);
    }
    hide UtxoOk, BlockOk, BlockPasses, NoDuplicates, NoOverwrites, ApplyBlock, Total, BlockLost, BlockValueIn, BlockValueOut, TargetGetMint;
  }

  /** Over a whole branch: the supply is what is unspent and what was lost, and no more than
      was minted. */
  lemma {:induction false} SupplyOfBranch(b: CBlockIndex)
    requires b.Linked() && forall h | 0 < h <= b.nHeight :: Sound(b.Ancestor(h))
    ensures UtxoOk(Replay(b)) && Supply(b) == Total(Replay(b)) + LostUpTo(b) && Supply(b) <= MintedUpTo(b)
    ensures (forall h | 0 < h <= b.nHeight :: ExemptSafely(b.Ancestor(h))) ==> LostUpTo(b) == 0
    decreases b.nHeight
  {
    RootIsAtZero(b);
    if b.pprev != null {
      AncestorSelf(b);
      assert forall h | 0 < h <= b.pprev.nHeight :: b.Ancestor(h) == b.pprev.Ancestor(h);
      SupplyOfBranch(b.pprev);
      ReplayStep(b);
      SupplyStep(b);
    }
  }
}
