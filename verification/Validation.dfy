/** Connecting and disconnecting one block on a view (main.cpp, ConnectBlock and
    DisconnectBlock). Outcomes decided elsewhere (script checks, signature-operation limits,
    timestamps, disk reads and writes) are arbitrary Booleans. */
module Validation {
  import opened CoinRecords
  import opened UtxoSet
  import opened MoneySupply
  import opened BlockTree
  import opened CoinsViews

  /** The two block heights and hashes BIP 30 does not apply to. */
  predicate Bip30Exempt(nHeight: nat, hash: nat) {
    || (nHeight == 91842 && hash == 0x00000000000a4d0a398161ffc163c503763b1f4360639393e0e4c8e300e0caec)
    || (nHeight == 91880 && hash == 0x00000000000743f190a18c5577a3c2d2a1f610ae9601ac046a38084ccb7cd721)
  }

  method CheckHaveInputs(tx: Tx, view: CCoinsViewCache) returns (ok: bool)
    requires view.Stacked() && TxOk(tx) && !tx.IsCoinBase()
    modifies view.repr
    ensures view.Utxo() == old(view.Utxo()) && view.OnlyCoins()
    ensures ok <==> HaveInputs(view.Utxo(), tx.vin)
  {
    hide Overlay;
    ghost var u := view.Utxo();
    for i := 0 to |tx.vin|
      invariant view.Utxo() == u && view.OnlyCoins()
    {
      assert tx.vin[i] in tx.vin;
      var found := view.HaveCoins(tx.vin[i].hash);
      if !found {
        return false;
      }
    }
    for i := 0 to |tx.vin|
      invariant view.Utxo() == u && view.OnlyCoins()
      invariant forall j | 0 <= j < i :: Available(u, tx.vin[j])
    {
      assert tx.vin[i] in tx.vin;
      var found, coins := view.GetCoins(tx.vin[i].hash);
      if !coins.IsAvailable(tx.vin[i].n) {
        return false;
      }
    }
    ok := true;
  }

  lemma {:induction false} EarlierInRange(u: Utxo, vin: seq<OutPoint>, nSpendHeight: int, k: nat, n: nat)
    requires k <= n <= |vin| && InputsInRange(u, vin, nSpendHeight, n)
    ensures InputsInRange(u, vin, nSpendHeight, k)
    decreases n
  {
    if k < n { EarlierInRange(u, vin, nSpendHeight, k, n - 1); }
  }

  /** The value tests of CheckInputs, then its scripts: it passes exactly when they all do. */
  method CheckInputs(tx: Tx, view: CCoinsViewCache) returns (ok: bool, ghost fScripts: bool)
    requires view.Stacked() && TxOk(tx) && !tx.IsCoinBase()
    requires view.pindexTip != null
    modifies view.repr
    ensures view.Utxo() == old(view.Utxo()) && view.OnlyCoins()
    ensures ok <==> InputsPass(view.Utxo(), tx, old(view.pindexTip.nHeight) + 1) && fScripts
  {
    hide Overlay, ValueOf, GetMinFee, TxOk;
    fScripts := true;
    ok := CheckHaveInputs(tx, view);
    if !ok {
      return;
    }
    ghost var u := view.Utxo();
    var tip := view.GetBestBlock();
    var nSpendHeight := tip.nHeight + 1;
    var nValueIn := 0;
    for i := 0 to |tx.vin|
      invariant view.Utxo() == u && view.OnlyCoins()
      invariant nValueIn == InputValue(u, tx.vin, i)
      invariant InputsInRange(u, tx.vin, nSpendHeight, i)
    {
      var p := tx.vin[i];
      assert Available(u, p);
      var found, coins := view.GetCoins(p.hash);
      if InputsInRange(u, tx.vin, nSpendHeight, |tx.vin|) {
        EarlierInRange(u, tx.vin, nSpendHeight, i + 1, |tx.vin|);
      }
      if coins.fCoinBase && nSpendHeight - coins.nHeight < COINBASE_MATURITY {
        return false, true;
      }
      nValueIn := nValueIn + coins.vout[p.n].nValue;
      if !MoneyRange(coins.vout[p.n].nValue) || !MoneyRange(nValueIn) {
        return false, true;
      }
    }
    if nValueIn < ValueOf(tx.vout) {
      return false, true;
    }
    var nTxFee := nValueIn - ValueOf(tx.vout);
    if nTxFee < GetMinFee(tx) || !MoneyRange(nTxFee) {
      return false, true;
    }
    ok := *; // the script checks
    fScripts := ok;
  }

  method GetValueIn(tx: Tx, view: CCoinsViewCache) returns (nResult: int)
    requires view.Stacked() && !tx.IsCoinBase() && HaveInputs(view.Utxo(), tx.vin)
    modifies view.repr
    ensures view.Utxo() == old(view.Utxo()) && view.OnlyCoins()
    ensures nResult == ValueIn(view.Utxo(), tx)
  {
    hide Overlay;
    ghost var u := view.Utxo();
    nResult := 0;
    for i := 0 to |tx.vin|
      invariant view.Utxo() == u && view.OnlyCoins()
      invariant nResult == InputValue(u, tx.vin, i)
    {
      assert Available(u, tx.vin[i]);
      var found, coins := view.GetCoins(tx.vin[i].hash);
      nResult := nResult + coins.vout[tx.vin[i].n].nValue;
    }
  }

  /** One input: the record is fetched, spent in place, and put back. */
  method SpendOne(p: OutPoint, view: CCoinsViewCache) returns (undo: TxInUndo)
    requires view.Stacked() && Available(view.Utxo(), p)
    modifies view.repr
    ensures view.Utxo() == SpendIn(old(view.Utxo()), p) && undo == UndoOf(old(view.Utxo()), p)
    ensures view.OnlyCoins()
  {
    hide Overlay;
    var found, coins := view.GetCoins(p.hash);
    var entry := new CCoins(coins);
    var ok;
    ok, undo := entry.Spend(p.n);
    assert ok;
    view.SetCoins(p.hash, entry.Value());
  }

  /** Spends the inputs in order, records the undo data, then adds the outputs. */
  method UpdateCoins(tx: Tx, view: CCoinsViewCache, nHeight: int) returns (undos: seq<TxInUndo>)
    requires view.Stacked() && TxOk(tx) && UtxoOk(view.Utxo())
    requires tx.IsCoinBase() || HaveInputs(view.Utxo(), tx.vin)
    modifies view.repr
    ensures view.Utxo() == ApplyTx(old(view.Utxo()), tx, nHeight)
    ensures undos == if tx.IsCoinBase() then [] else UndosOf(old(view.Utxo()), tx.vin, |tx.vin|)
    ensures view.OnlyCoins()
  {
    hide Overlay, SpendIn, UndoOf, Available, Clean;
    undos := [];
    ghost var u := view.Utxo();
    if !tx.IsCoinBase() {
      for i := 0 to |tx.vin|
        invariant view.Utxo() == SpendAll(u, tx.vin, i) && view.OnlyCoins()
        invariant undos == UndosOf(u, tx.vin, i)
      {
        assert tx.vin[i] !in tx.vin[..i];
        SpendAllAvailability(u, tx.vin, i, tx.vin[i]);
        var undo := SpendOne(tx.vin[i], view);
        undos := undos + [undo];
      }
    }
    assert !FromTx(tx, nHeight).IsPruned() by { assert tx.vout[|tx.vout| - 1] in tx.vout; }
    view.SetCoins(tx.hash, FromTx(tx, nHeight));
  }


  // ---------- disconnecting ----------

  /** A fully spent record left in the table counts as an absent one. */
  lemma LeftoverIsAbsent(u: Utxo, t: Txid, found: bool, coins: Coins, n: nat, undo: TxInUndo)
    requires Seen(u, t) == Answer(found, coins) && (!found ==> coins == EMPTY_COINS)
    requires t in u ==> !u[t].IsPruned()
    ensures RestoreIsClean(coins, n, undo) <==> RestoreIsClean(Look(u, t), n, undo)
    ensures RestoreIsClean(coins, n, undo) ==> RestoreOutput(coins, n, undo) == RestoreOutput(Look(u, t), n, undo)
  {
  }

  lemma NotFoundIsPruned()
    ensures EMPTY_COINS.IsPruned()
  {
  }

  lemma UtxoIsUnpruned(view: CCoinsViewCache, t: Txid)
    requires view.Stacked()
    ensures t in view.Utxo() ==> !view.Utxo()[t].IsPruned()
  {
  }

  /** Writes one spent output back. */
  method RestoreInput(p: OutPoint, undo: TxInUndo, view: CCoinsViewCache) returns (fClean: bool)
    requires view.Stacked() && p.OutPoint?
    modifies view.repr
    ensures view.OnlyCoins()
    ensures fClean <==> RestoreIsClean(Look(old(view.Utxo()), p.hash), p.n, undo)
    ensures fClean ==> view.Utxo() == Put(old(view.Utxo()), p.hash, RestoreOutput(Look(old(view.Utxo()), p.hash), p.n, undo))
  {
    UtxoIsUnpruned(view, p.hash);
    hide Overlay;
    var found, coins := view.GetCoins(p.hash);
    LeftoverIsAbsent(view.Utxo(), p.hash, found, coins, p.n, undo);
    ghost var raw := coins;
    fClean := true;
    if undo.nHeight != 0 {
      if !coins.IsPruned() {
        fClean := false;
      }
      coins := EMPTY_COINS.(fCoinBase := undo.fCoinBase, nHeight := undo.nHeight, nVersion := undo.nVersion);
    } else if coins.IsPruned() {
      fClean := false;
    }
    if coins.IsAvailable(p.n) {
      fClean := false;
    }
    coins := coins.(vout := Resize(coins.vout, p.n + 1));
    coins := coins.(vout := coins.vout[p.n := undo.txout]);
    assert coins == RestoreOutput(raw, p.n, undo) && fClean == RestoreIsClean(raw, p.n, undo);
    hide RestoreOutput, RestoreIsClean, Put, Look;
    view.SetCoins(p.hash, coins);
  }

  /** Takes the outputs of a transaction away again. */
  method RemoveOutputs(tx: Tx, nHeight: int, view: CCoinsViewCache) returns (fClean: bool)
    requires view.Stacked() && TxOk(tx)
    modifies view.repr
    ensures view.OnlyCoins()
    ensures view.Utxo() == old(view.Utxo()) - {tx.hash}
    ensures fClean <==> tx.hash in old(view.Utxo()) && MatchesTx(old(view.Utxo())[tx.hash], tx, nHeight)
  {
    hide Overlay;
    ghost var u := view.Utxo();
    fClean := true;
    var found := view.HaveCoins(tx.hash);
    if !found {
      fClean := false;
      view.SetCoins(tx.hash, EMPTY_COINS);
    }
    var fThere, outs := view.GetCoins(tx.hash);
    NotFoundIsPruned();
    var outsBlock := FromTx(tx, nHeight);
    assert !outsBlock.IsPruned() by { assert tx.vout[0] in tx.vout; }
    if outsBlock.nVersion < 0 {
      outs := outs.(nVersion := outsBlock.nVersion);
    }
    if outs != outsBlock {
      fClean := false;
    }
    view.SetCoins(tx.hash, EMPTY_COINS);
  }

  /** Undoes one transaction; `ok` is false when the undo data does not fit it. */
  method UndoTransaction(tx: Tx, nHeight: int, fFirst: bool, undos: seq<TxInUndo>, view: CCoinsViewCache)
    returns (ok: bool, fClean: bool)
    requires view.Stacked() && TxOk(tx) && (fFirst <==> tx.IsCoinBase())
    modifies view.repr
    ensures view.OnlyCoins()
    ensures ok && fClean <==> UndoTx(old(view.Utxo()), tx, nHeight, fFirst, undos).Some?
    ensures ok && fClean ==> UndoTx(old(view.Utxo()), tx, nHeight, fFirst, undos) == Some(view.Utxo())
  {
    hide Overlay;
    fClean := RemoveOutputs(tx, nHeight, view);
    ghost var u := view.Utxo();
    ok := true;
    if !fFirst {
      if |undos| != |tx.vin| {
        return false, fClean;
      }
      ghost var fRemoved := fClean;
      var j := |tx.vin|;
      while j > 0
        invariant 0 <= j <= |tx.vin| && view.OnlyCoins()
        invariant fClean ==> UndoAll(u, tx.vin, undos, |tx.vin|) == UndoAll(view.Utxo(), tx.vin, undos, j)
        invariant !fClean ==> !fRemoved || UndoAll(u, tx.vin, undos, |tx.vin|).None?
        invariant fClean ==> fRemoved
      {
        j := j - 1;
        var fRestored := RestoreInput(tx.vin[j], undos[j], view);
        fClean := fClean && fRestored;
      }
    }
  }

  /** A caller that asks for it (`fAsked`, pfClean) is told whether the undo was clean; for one
      that does not, an unclean undo is a failure. */
  method DisconnectBlock(pindex: CBlockIndex, view: CCoinsViewCache, fAsked: bool) returns (ok: bool, fClean: bool)
    requires view.Stacked() && view.Tip() == pindex && BlockOk(pindex.vtx)
    requires pindex.undo.Some? ==> pindex.pprev != null
    modifies view.repr
    ensures view.BaseUtxo() == old(view.BaseUtxo()) && view.BaseTip() == old(view.BaseTip())
    ensures ok ==> pindex.undo.Some? && view.Tip() == view.pindexTip == pindex.pprev
    ensures fClean ==> ok && UndoBlock(old(view.Utxo()), pindex.vtx, pindex.nHeight, pindex.undo.value) == Some(view.Utxo())
    ensures ok && !fClean ==> fAsked && UndoBlock(old(view.Utxo()), pindex.vtx, pindex.nHeight, pindex.undo.value).None?
  {
    hide Overlay, UndoAll, UndoTx, BlockOk;
    if pindex.undo.None? {
      return false, false;
    }
    var fRead: bool := *; // whether the undo file could be read
    if !fRead {
      return false, false;
    }
    var vtx, vtxundo := pindex.vtx, pindex.undo.value;
    if |vtxundo| + 1 != |vtx| {
      return false, false;
    }
    ghost var u := view.Utxo();
    fClean := true;
    var i := |vtx|;
    while i > 0
      invariant 0 <= i <= |vtx| && view.OnlyCoins()
      invariant pindex.undo == Some(vtxundo)
      invariant fClean ==> UndoTxs(u, vtx, pindex.nHeight, vtxundo, |vtx|) == UndoTxs(view.Utxo(), vtx, pindex.nHeight, vtxundo, i)
      invariant !fClean ==> UndoTxs(u, vtx, pindex.nHeight, vtxundo, |vtx|).None?
    {
      i := i - 1;
      BlockOkAt(vtx, i);
      var fFits, fTxClean := UndoTransaction(vtx[i], pindex.nHeight, i == 0, StoredUndo(vtxundo, i + 1), view);
      if !fFits {
        return false, false;
      }
      fClean := fClean && fTxClean;
    }
    view.SetBestBlock(pindex.pprev);
    ok := fAsked || fClean;
  }

  // ---------- connecting ----------

  /** Every transaction meets CheckInputs on the state left by the ones before it. */
  predicate BlockPasses(u: Utxo, txs: seq<Tx>, nHeight: int, k: nat)
    requires k <= |txs|
  {
    k == 0 || (BlockPasses(u, txs, nHeight, k - 1) && InputsPass(ApplyTxs(u, txs, nHeight, k - 1), txs[k - 1], nHeight))
  }

  lemma {:induction false} EarlierPasses(u: Utxo, txs: seq<Tx>, nHeight: int, k: nat, n: nat)
    requires k <= n <= |txs| && BlockPasses(u, txs, nHeight, n)
    ensures BlockPasses(u, txs, nHeight, k)
    decreases n
  {
    if k < n { EarlierPasses(u, txs, nHeight, k, n - 1); }
  }

  lemma {:induction false} PassingMeansReady(u: Utxo, txs: seq<Tx>, nHeight: int, k: nat)
    requires BlockOk(txs) && k <= |txs| && BlockPasses(u, txs, nHeight, k)
    ensures InputsReady(u, txs, nHeight, k)
  {
    if k > 1 { PassingMeansReady(u, txs, nHeight, k - 1); }
  }

  /** A supply that is the total of the unspent set stays so, but for replaced records: none
      when the block passes the BIP 30 test. */
  lemma SupplyStaysTotal(u: Utxo, txs: seq<Tx>, nHeight: int)
    requires UtxoOk(u) && BlockOk(txs) && nHeight >= 1 && BlockPasses(u, txs, nHeight, |txs|)
    ensures Total(u) + BlockValueOut(txs, |txs|) - BlockValueIn(u, txs, nHeight, |txs|)
            == Total(ApplyBlock(u, txs, nHeight)) + BlockLost(u, txs, nHeight, |txs|)
    ensures NoDuplicates(u, txs) ==> BlockLost(u, txs, nHeight, |txs|) == 0
  {
    hide UtxoOk, BlockOk, BlockPasses, ApplyTxs, InputsReady, Total, BlockLost, BlockValueIn, BlockValueOut, NoOverwrites;
    PassingMeansReady(u, txs, nHeight, |txs|);
    BlockConserves(u, txs, nHeight, |txs|);
    if NoDuplicates(u, txs) {
      NoDuplicatesMeansNoOverwrites(u, txs, nHeight, |txs|);
      NothingLost(u, txs, nHeight, |txs|);
    }
  }

  /** The BIP 30 scan over the whole block, before any of it is applied. */
  method HasDuplicate(vtx: seq<Tx>, view: CCoinsViewCache) returns (found: bool)
    requires view.Stacked()
    modifies view.repr
    ensures view.Utxo() == old(view.Utxo()) && view.OnlyCoins()
    ensures !found <==> NoDuplicates(view.Utxo(), vtx)
  {
    hide Overlay;
    for i := 0 to |vtx|
      invariant view.Utxo() == old(view.Utxo()) && view.OnlyCoins()
      invariant forall j | 0 <= j < i :: vtx[j].hash !in view.Utxo()
    {
      UtxoIsUnpruned(view, vtx[i].hash);
      var have := view.HaveCoins(vtx[i].hash);
      if have {
        var fThere, coins := view.GetCoins(vtx[i].hash);
        if fThere && !coins.IsPruned() {
          return true;
        }
      }
    }
    found := false;
  }

  method ConnectTx(tx: Tx, nHeight: int, view: CCoinsViewCache)
    returns (ok: bool, txundo: seq<TxInUndo>, nTxValueIn: int, ghost fScripts: bool)
    requires view.Stacked() && TxOk(tx) && UtxoOk(view.Utxo())
    requires view.pindexTip != null && view.pindexTip.nHeight + 1 == nHeight
    modifies view.repr
    ensures view.OnlyCoins()
    ensures ok <==> InputsPass(old(view.Utxo()), tx, nHeight) && fScripts
    ensures ok ==> view.Utxo() == ApplyTx(old(view.Utxo()), tx, nHeight) && nTxValueIn == ValueIn(old(view.Utxo()), tx)
    ensures ok ==> txundo == if tx.IsCoinBase() then [] else UndosOf(old(view.Utxo()), tx.vin, |tx.vin|)
  {
    hide Overlay;
    ok, txundo, nTxValueIn, fScripts := true, [], 0, true;
    if !tx.IsCoinBase() {
      ok := CheckHaveInputs(tx, view);
      if !ok {
        return;
      }
      nTxValueIn := GetValueIn(tx, view);
      ok, fScripts := CheckInputs(tx, view);
      if !ok {
        return;
      }
    }
    txundo := UpdateCoins(tx, view, nHeight);
  }

  /** The loop of ConnectBlock over the transactions. `fOutside` says whether the tests that are
      not modelled went well. */
  method ConnectTxs(vtx: seq<Tx>, nHeight: nat, view: CCoinsViewCache)
    returns (ok: bool, nFees: int, nValueIn: int, nValueOut: int, vtxundo: seq<seq<TxInUndo>>, ghost fOutside: bool)
    requires view.Stacked() && BlockOk(vtx) && UtxoOk(view.Utxo())
    requires view.pindexTip != null && view.pindexTip.nHeight + 1 == nHeight
    modifies view.repr
    ensures view.OnlyCoins()
    ensures ok <==> BlockPasses(old(view.Utxo()), vtx, nHeight, |vtx|) && fOutside
    ensures ok ==> var u, k := old(view.Utxo()), |vtx|;
                   && view.Utxo() == ApplyTxs(u, vtx, nHeight, k)
                   && nFees == BlockFees(u, vtx, nHeight, k) && vtxundo == BlockUndo(u, vtx, nHeight, k)
                   && nValueIn == BlockValueIn(u, vtx, nHeight, k) && nValueOut == BlockValueOut(vtx, k)
  {
    hide Overlay, TxOk, UtxoOk, ApplyTx, InputsPass, ValueOf, UndosOf;
    ghost var u := view.Utxo();
    nFees, nValueIn, nValueOut, vtxundo := 0, 0, 0, [];
    for i := 0 to |vtx|
      invariant view.OnlyCoins()
      invariant view.Utxo() == ApplyTxs(u, vtx, nHeight, i) && BlockPasses(u, vtx, nHeight, i)
      invariant nValueIn == BlockValueIn(u, vtx, nHeight, i) && nValueOut == BlockValueOut(vtx, i)
      invariant nFees == BlockFees(u, vtx, nHeight, i)
      invariant vtxundo == BlockUndo(u, vtx, nHeight, i)
    {
      var tx := vtx[i];
      BlockOkAt(vtx, i);
      ApplyTxsKeepsOk(u, vtx, nHeight, i);
      hide BlockOk;
      var fSigOps: bool := *; // the signature-operation limit
      if !fSigOps {
        return false, nFees, nValueIn, nValueOut, vtxundo, false;
      }
      if BlockPasses(u, vtx, nHeight, |vtx|) {
        EarlierPasses(u, vtx, nHeight, i + 1, |vtx|);
      }
      var fTx, txundo, nTxValueIn;
      fTx, txundo, nTxValueIn, fOutside := ConnectTx(tx, nHeight, view);
      if !fTx {
        return false, nFees, nValueIn, nValueOut, vtxundo, fOutside;
      }
      nValueOut := nValueOut + ValueOf(tx.vout);
      if !tx.IsCoinBase() {
        nValueIn := nValueIn + nTxValueIn;
        nFees := nFees + nTxValueIn - ValueOf(tx.vout);
        vtxundo := vtxundo + [txundo];
      }
    }
    ok, fOutside := true, true;
  }

  /** The modelled conditions of ConnectBlock. */
  predicate BlockAccepted(u: Utxo, vtx: seq<Tx>, nHeight: nat, nBits: nat, hash: nat) {
    && BlockOk(vtx) && BlockPasses(u, vtx, nHeight, |vtx|)
    && (NoDuplicates(u, vtx) || Bip30Exempt(nHeight, hash))
    && ValueOf(vtx[0].vout) <= CoinbaseLimit(u, vtx, nHeight, nBits)
  }

  /** What the exemption lets happen: a block at the first exempt height repeats a coinbase that
      is still unspent, with at most its due. Connecting replaces the record, and disconnecting
      leaves nothing where it had been. */
  lemma RepeatedCoinbaseIsLost() returns (u: Utxo, txs: seq<Tx>, nHeight: nat, nBits: nat, hash: nat)
    ensures UtxoOk(u) && u != map[]
    ensures Bip30Exempt(nHeight, hash) && BlockAccepted(u, txs, nHeight, nBits, hash) && Overwrites(u, txs, nHeight, 0)
    ensures UndoBlock(ApplyBlock(u, txs, nHeight), txs, nHeight, BlockUndo(u, txs, nHeight, |txs|)) == Some(map[])
  {
    var tx := Tx(7, 1, [NullPoint], [TxOut(COIN, [])], 100);
    nHeight, hash := 91842, 0x00000000000a4d0a398161ffc163c503763b1f4360639393e0e4c8e300e0caec;
    u, txs, nBits := map[7 := FromTx(tx, 1)], [tx], 7 * FRACTIONAL_ONE;
    CoinbaseIsOk(tx);
    SevenMints();
    assert SpendInputs(u, tx) == u;
    assert ApplyTxs(u, txs, nHeight, 0) == u;
    assert BlockPasses(u, txs, nHeight, 0) && InputsPass(u, tx, nHeight);
    hide TxOk, TargetGetMint;
    var after := ApplyTx(u, tx, nHeight);
    assert ApplyBlock(u, txs, nHeight) == after;
    assert UndoTx(after, tx, nHeight, true, StoredUndo([], 1)) == Some(map[]);
  }

  lemma CoinbaseIsOk(tx: Tx)
    requires tx.IsCoinBase() && tx.vout == [TxOut(COIN, [])]
    ensures TxOk(tx) && ValueOf(tx.vout) == COIN
  {
    assert tx.vout[..0] == [] && tx.vout[..1] == tx.vout;
    assert ValueOf(tx.vout[..0]) == 0 && ValueOf(tx.vout[..1]) == COIN;
  }

  lemma SevenMints()
    ensures TargetGetMint(7 * FRACTIONAL_ONE) >= COIN
  {
  }

  /** Connects a block. The undo record is written only once: a block that has one keeps it
      when it is connected again. `fOutside` is the verdict of what is not modelled: the other
      tests on the block, its scripts, and the disk. */
  method ConnectBlock(pindex: CBlockIndex, view: CCoinsViewCache, hashGenesisBlock: nat) returns (ok: bool, ghost fOutside: bool)
    requires view.Stacked() && view.Tip() == pindex.pprev && UtxoOk(view.Utxo())
    requires pindex.pprev == null <==> pindex.hash == hashGenesisBlock
    requires pindex.pprev != null ==> pindex.nHeight == pindex.pprev.nHeight + 1
    modifies view.repr, pindex`undo, pindex`nMoneySupply
    ensures view.BaseUtxo() == old(view.BaseUtxo()) && view.BaseTip() == old(view.BaseTip())
    ensures ok ==> view.Tip() == view.pindexTip == pindex
    ensures ok <==> fOutside && if pindex.pprev == null then BlockOk(pindex.vtx)
                                else BlockAccepted(old(view.Utxo()), pindex.vtx, pindex.nHeight, pindex.nBits, pindex.hash)
    ensures ok && pindex.pprev == null ==> view.Utxo() == old(view.Utxo())
    ensures pindex.pprev == null ==> pindex.undo == old(pindex.undo) && pindex.nMoneySupply == old(pindex.nMoneySupply)
    ensures pindex.nMoneySupply == old(pindex.nMoneySupply)
            || (pindex.pprev != null && pindex.nMoneySupply == old(pindex.pprev.nMoneySupply) + BlockValueOut(pindex.vtx, |pindex.vtx|)
                                                              - BlockValueIn(old(view.Utxo()), pindex.vtx, pindex.nHeight, |pindex.vtx|))
    ensures ok && pindex.pprev != null ==>
              var u, vtx, h := old(view.Utxo()), pindex.vtx, pindex.nHeight;
              && view.Utxo() == ApplyBlock(u, vtx, h) && pindex.undo.Some?
              && pindex.nMoneySupply == old(pindex.pprev.nMoneySupply) + BlockValueOut(vtx, |vtx|) - BlockValueIn(u, vtx, h, |vtx|)
              && pindex.nMoneySupply <= old(pindex.pprev.nMoneySupply) + TargetGetMint(pindex.nBits)
              && (old(pindex.pprev.nMoneySupply) == Total(u) ==> pindex.nMoneySupply == Total(view.Utxo()) + BlockLost(u, vtx, h, |vtx|))
    ensures pindex.undo == old(pindex.undo)
            || (old(pindex.undo).None? && pindex.undo == Some(BlockUndo(old(view.Utxo()), pindex.vtx, pindex.nHeight, |pindex.vtx|)))
  {
    hide Overlay, UtxoOk, BlockPasses, ApplyTxs, BlockUndo, BlockFees, BlockValueIn, BlockValueOut, ValueOf, TargetGetMint, NoDuplicates, Total, BlockLost, Tx.IsCoinBase;
    var vtx, nHeight := pindex.vtx, pindex.nHeight;
    var fCheckBlock: bool := *; // CheckBlock's tests on time, size, signature operations and merkle root
    fOutside := fCheckBlock;
    if !fCheckBlock || !BlockOk(vtx) {
      return false, fOutside;
    }
    ghost var u := view.Utxo();
    var tip := view.GetBestBlock();
    if pindex.hash == hashGenesisBlock {
      view.SetBestBlock(pindex);
      return true, true;
    }
    if !Bip30Exempt(nHeight, pindex.hash) {
      var fDuplicate := HasDuplicate(vtx, view);
      if fDuplicate {
        return false, true;
      }
    }
    var fTxs, nFees, nValueIn, nValueOut, vtxundo;
    fTxs, nFees, nValueIn, nValueOut, vtxundo, fOutside := ConnectTxs(vtx, nHeight, view);
    if !fTxs {
      return false, fOutside;
    }
    pindex.nMoneySupply := pindex.pprev.nMoneySupply + nValueOut - nValueIn;
    var fIndexWritten: bool := *;
    if !fIndexWritten {
      return false, false;
    }
    if ValueOf(vtx[0].vout) > GetBlockValue(pindex.nBits, nFees) - GetMinFee(vtx[0]) + MIN_TX_FEE {
      return false, true;
    }
    var fScripts: bool := *; // control.Wait()
    if !fScripts {
      return false, false;
    }
    if pindex.undo.None? {
      var fUndoWritten: bool := *;
      if !fUndoWritten {
        return false, false;
      }
      pindex.undo := Some(vtxundo);
    }
    fIndexWritten := *;
    if !fIndexWritten {
      return false, false;
    }
    GrowthIsAtMostMint(u, vtx, nHeight, pindex.nBits);
    SupplyStaysTotal(u, vtx, nHeight);
    view.SetBestBlock(pindex);
    ok, fOutside := true, true;
  }
}
