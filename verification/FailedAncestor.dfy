/** A state that ConnectBestBlock leaves with a failed block below the tip (main.cpp,
    ConnectBestBlock): genesis, a block that has failed, and on top of it the tip, which is
    the only candidate and has not. SetBestChain, which does not look at the mark, leads there
    when it is called for a sync checkpoint (checkpointsync.cpp:182). */
module FailedAncestor {
  import opened CoinRecords
  import opened UtxoSet
  import opened MoneySupply
  import opened BlockTree
  import opened CoinsViews
  import opened Validation
  import opened Chain
  import opened ChainState
  import opened BestChain

  function Coinbase(hash: Txid): Tx {
    Tx(hash, 1, [NullPoint], [TxOut(COIN, [])], 100)
  }

  /** Three blocks one above the other; the upper two hold a coinbase each. */
  ghost predicate Trunk(hashGenesisBlock: nat, g: CBlockIndex, b1: CBlockIndex, b2: CBlockIndex) {
    && g.pprev == null && b1.pprev == g && b2.pprev == b1
    && g.nHeight == 0 && b1.nHeight == 1 && b2.nHeight == 2
    && g.nChainWork < b1.nChainWork < b2.nChainWork
    && g.hash == hashGenesisBlock && b1.hash != hashGenesisBlock && b2.hash != hashGenesisBlock
    && b1.vtx == [Coinbase(1)] && b2.vtx == [Coinbase(2)] && b1.nBits == b2.nBits == 7 * FRACTIONAL_ONE
  }

  lemma TrunkHeights(hashGenesisBlock: nat, g: CBlockIndex, b1: CBlockIndex, b2: CBlockIndex)
    requires Trunk(hashGenesisBlock, g, b1, b2)
    ensures g.Linked() && b1.Linked() && b2.Linked() && g != b1 && g != b2 && b1 != b2
    ensures b2.Ancestor(0) == g && b2.Ancestor(1) == b1 && b2.Ancestor(2) == b2
  {
    assert b1.Ancestor(0) == g;
  }

  lemma CoinbaseApplied(u: Utxo, tx: Tx, nHeight: nat)
    requires tx.IsCoinBase() && tx.vout == [TxOut(COIN, [])] && tx.nBytes < 1000 && tx.hash !in u
    ensures forall hash: nat :: BlockAccepted(u, [tx], nHeight, 7 * FRACTIONAL_ONE, hash)
    ensures BlockValueOut([tx], 1) == COIN && BlockValueIn(u, [tx], nHeight, 1) == 0
    ensures ApplyBlock(u, [tx], nHeight) == u[tx.hash := FromTx(tx, nHeight)] && BlockUndo(u, [tx], nHeight, 1) == []
  {
    CoinbaseIsOk(tx);
    SevenMints();
    hide TxOk, TargetGetMint;
    assert BlockValueIn(u, [tx], nHeight, 0) == 0 && BlockValueOut([tx], 0) == 0 && BlockFees(u, [tx], nHeight, 1) == 0;
    assert BlockPasses(u, [tx], nHeight, 0) && InputsPass(u, tx, nHeight);
    assert ApplyTxs(u, [tx], nHeight, 0) == u && SpendInputs(u, tx) == u;
    assert ApplyBlock(u, [tx], nHeight) == ApplyTx(u, tx, nHeight);
  }

  lemma TrunkReplays(hashGenesisBlock: nat, g: CBlockIndex, b1: CBlockIndex, b2: CBlockIndex)
    requires Trunk(hashGenesisBlock, g, b1, b2)
    ensures Sound(b1) && BlockUndo(Replay(g), b1.vtx, 1, 1) == [] && Sound(b2) && BlockUndo(Replay(b1), b2.vtx, 2, 1) == []
    ensures Replay(b2) == map[1 := FromTx(Coinbase(1), 1)][2 := FromTx(Coinbase(2), 2)]
    ensures Supply(g) == 0 && Supply(b1) == COIN && Supply(b2) == 2 * COIN
  {
    TrunkHeights(hashGenesisBlock, g, b1, b2);
    assert Replay(g) == map[];
    CoinbaseApplied(map[], Coinbase(1), 1);
    CoinbaseApplied(map[1 := FromTx(Coinbase(1), 1)], Coinbase(2), 2);
    hide ApplyBlock, BlockAccepted, BlockUndo, BlockValueIn, BlockValueOut;
  }

  /** The trunk as the active chain, with nothing but its tip to choose. */
  ghost predicate OnTrunk(cs: CChainState, g: CBlockIndex, b1: CBlockIndex, b2: CBlockIndex)
    reads cs, g, b1, b2
  {
    && Trunk(cs.hashGenesisBlock, g, b1, b2)
    && cs.mapBlockIndex == {g, b1, b2} && cs.setBlockIndexValid == {b2} && cs.pindexBest == b2 && cs.pblockindexFBBHLast == null
    && g.pnext == b1 && b1.pnext == b2 && b2.pnext == null
    && g.undo == None && b1.undo == Some([]) && b2.undo == Some([])
    && g.nMoneySupply == 0 && b1.nMoneySupply == COIN && b2.nMoneySupply == 2 * COIN
  }

  lemma TrunkTree(cs: CChainState, g: CBlockIndex, b1: CBlockIndex, b2: CBlockIndex)
    requires OnTrunk(cs, g, b1, b2) && cs.pcoinsTip.Stacked() && cs !in cs.pcoinsTip.repr
    ensures cs.TreeOk()
  {
    TrunkHeights(cs.hashGenesisBlock, g, b1, b2);
    hide CBlockIndex.Ancestor;
  }

  lemma TrunkLinks(cs: CChainState, g: CBlockIndex, b1: CBlockIndex, b2: CBlockIndex)
    requires OnTrunk(cs, g, b1, b2)
    ensures cs.LinksOk()
  {
    TrunkHeights(cs.hashGenesisBlock, g, b1, b2);
    hide CBlockIndex.Ancestor, CBlockIndex.Linked;
  }

  lemma TrunkCoins(cs: CChainState, g: CBlockIndex, b1: CBlockIndex, b2: CBlockIndex)
    requires OnTrunk(cs, g, b1, b2) && cs.pcoinsTip.Stacked() && cs.pcoinsTip.Tip() == b2
    requires cs.pcoinsTip.Utxo() == map[1 := FromTx(Coinbase(1), 1)][2 := FromTx(Coinbase(2), 2)]
    ensures cs.CoinsOk()
  {
    TrunkHeights(cs.hashGenesisBlock, g, b1, b2);
    TrunkReplays(cs.hashGenesisBlock, g, b1, b2);
    hide CBlockIndex.Ancestor, CBlockIndex.Linked, Sound, Replay, Supply, BlockUndo, CBlockIndex.Descends;
    assert Applied(g) && Applied(b1) && Applied(b2);
  }

  lemma PutCoinbases(c1: Coins, c2: Coins)
    requires c1 == FromTx(Coinbase(1), 1) && c2 == FromTx(Coinbase(2), 2)
    ensures Put(Put(map[], 1, c1), 2, c2) == map[1 := c1][2 := c2]
  {
    assert c1.vout[0] in c1.vout && c2.vout[0] in c2.vout;
  }

  /** The coins of both coinbases. */
  method FillCoins(view: CCoinsViewCache)
    requires view.Stacked() && view.Utxo() == map[]
    modifies view`cacheCoins
    ensures view.Utxo() == map[1 := FromTx(Coinbase(1), 1)][2 := FromTx(Coinbase(2), 2)]
  {
    hide Overlay, Put;
    view.SetCoins(1, FromTx(Coinbase(1), 1));
    view.SetCoins(2, FromTx(Coinbase(2), 2));
    PutCoinbases(FromTx(Coinbase(1), 1), FromTx(Coinbase(2), 2));
  }

  /** The blocks, linked and with their undo data. */
  method MakeBlocks(hashGenesisBlock: nat, hash1: nat, hash2: nat) returns (g: CBlockIndex, b1: CBlockIndex, b2: CBlockIndex)
    requires hash1 != hashGenesisBlock && hash2 != hashGenesisBlock
    ensures fresh({g, b1, b2}) && Trunk(hashGenesisBlock, g, b1, b2)
    ensures g.pnext == b1 && b1.pnext == b2 && b2.pnext == null
    ensures g.undo == None && b1.undo == Some([]) && b2.undo == Some([])
    ensures g.nMoneySupply == 0 && b1.nMoneySupply == COIN && b2.nMoneySupply == 2 * COIN
    ensures !g.fFailed && b1.fFailed && !b2.fFailed
  {
    g := new CBlockIndex(hashGenesisBlock, null, 7 * FRACTIONAL_ONE, 256, []);
    b1 := new CBlockIndex(hash1, g, 7 * FRACTIONAL_ONE, 256, [Coinbase(1)]);
    b2 := new CBlockIndex(hash2, b1, 7 * FRACTIONAL_ONE, 256, [Coinbase(2)]);
    g.pnext, b1.pnext := b1, b2;
    b1.undo, b2.undo := Some([]), Some([]);
    b1.nMoneySupply, b2.nMoneySupply := COIN, 2 * COIN;
    b1.fFailed := true;
  }

  method EmptyCoins() returns (view: CCoinsViewCache)
    ensures fresh(view.repr) && view.Stacked() && view.Utxo() == map[] && view.Tip() == null
  {
    var db := new CCoinsViewDB();
    view := new CCoinsViewCache(OnDisk(db));
  }

  method NodeWithCoins(hashGenesisBlock: nat) returns (cs: CChainState)
    ensures fresh(cs) && fresh(cs.pcoinsTip.repr) && cs.pcoinsTip.Stacked() && cs !in cs.pcoinsTip.repr
    ensures cs.hashGenesisBlock == hashGenesisBlock && cs.pblockindexFBBHLast == null
    ensures cs.pcoinsTip.Utxo() == map[1 := FromTx(Coinbase(1), 1)][2 := FromTx(Coinbase(2), 2)]
  {
    hide CChainState.CoinsOk, CChainState.LinksOk, Overlay;
    var view := EmptyCoins();
    cs := new CChainState(hashGenesisBlock, view);
    FillCoins(view);
  }

  /** There is such a state, with the lower of the two blocks failed. */
  method MakeTrunk(hashGenesisBlock: nat, hash1: nat, hash2: nat)
    returns (cs: CChainState, g: CBlockIndex, b1: CBlockIndex, b2: CBlockIndex)
    requires hash1 != hashGenesisBlock && hash2 != hashGenesisBlock
    ensures fresh(cs) && fresh(cs.pcoinsTip.repr) && fresh({g, b1, b2}) && cs.Valid() && OnTrunk(cs, g, b1, b2)
    ensures !g.fFailed && b1.fFailed && !b2.fFailed
  {
    hide CChainState.Valid, Trunk, Overlay;
    g, b1, b2 := MakeBlocks(hashGenesisBlock, hash1, hash2);
    cs := NodeWithCoins(hashGenesisBlock);
    cs.pcoinsTip.SetBestBlock(b2);
    cs.mapBlockIndex, cs.setBlockIndexValid, cs.pindexBest := {g, b1, b2}, {b2}, b2;
    TrunkIsValid(cs, g, b1, b2);
  }

  lemma TrunkIsValid(cs: CChainState, g: CBlockIndex, b1: CBlockIndex, b2: CBlockIndex)
    requires OnTrunk(cs, g, b1, b2) && cs.pcoinsTip.Stacked() && cs !in cs.pcoinsTip.repr && cs.pcoinsTip.Tip() == b2
    requires cs.pcoinsTip.Utxo() == map[1 := FromTx(Coinbase(1), 1)][2 := FromTx(Coinbase(2), 2)]
    ensures cs.Valid()
  {
    hide OnTrunk, CChainState.TreeOk, CChainState.CoinsOk, CChainState.LinksOk;
    TrunkTree(cs, g, b1, b2);
    TrunkLinks(cs, g, b1, b2);
    TrunkCoins(cs, g, b1, b2);
  }

  /** With no better candidate than its tip the call leaves the trunk as it is. */
  lemma TrunkStays(cs: CChainState, g: CBlockIndex, b1: CBlockIndex, b2: CBlockIndex)
    requires OnTrunk(cs, g, b1, b2) && b1.fFailed && !b2.fFailed
    ensures NoneFailed(cs.setBlockIndexValid) && WorkGrows(cs.mapBlockIndex) && AllExemptSafely(cs.mapBlockIndex)
    ensures Movable(cs) == {} && !SharesNoFailed(cs, b2)
  {
    TrunkHeights(cs.hashGenesisBlock, g, b1, b2);
    hide CBlockIndex.Ancestor, CBlockIndex.Linked, Attachable;
    assert b2.Descends(b1);
  }

  /** No candidate has failed, the tip is among them, the call succeeds, and the failed block
      below the tip stays there. */
  method FailedAncestorStays(cs: CChainState, g: CBlockIndex, b1: CBlockIndex, b2: CBlockIndex) returns (ok: bool)
    requires cs.Valid() && OnTrunk(cs, g, b1, b2) && b1.fFailed && !b2.fFailed
    modifies cs`setBlockIndexValid, cs`pindexBest, cs`pblockindexFBBHLast, cs.pcoinsTip.repr, cs.mapBlockIndex
    ensures old(cs.pindexBest in cs.setBlockIndexValid && NoneFailed(cs.setBlockIndexValid))
    ensures ok && cs.Valid() && cs.pindexBest == b2 && !CleanBranch(cs.mapBlockIndex, cs.pindexBest)
  {
    TrunkStays(cs, g, b1, b2);
    hide SharesNoFailed, Movable, CleanBranch, Trunk, NoneFailed, WorkGrows, AllExemptSafely, CChainState.CoinsOk, CChainState.LinksOk, CChainState.TreeOk;
    ok := ConnectBestBlock(cs);
  }
}
