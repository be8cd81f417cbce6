/** The unspent set as a value, with a fully spent record the same as an absent one, and
    what connecting and disconnecting a block does to it (main.cpp, ConnectBlock and
    DisconnectBlock). Transactions and inputs are applied in order and undone backwards;
    `k` counts how many of a list have been applied. */
module UtxoSet {
  import opened CoinRecords

  type Utxo = map<Txid, Coins>

  datatype Option<T> = None | Some(value: T)

  ghost predicate UtxoOk(u: Utxo) {
    forall t | t in u :: Clean(u[t])
  }

  predicate Available(u: Utxo, p: OutPoint) {
    p.OutPoint? && p.hash in u && u[p.hash].IsAvailable(p.n)
  }

  function Look(u: Utxo, t: Txid): Coins {
    if t in u then u[t] else EMPTY_COINS
  }

  function Put(u: Utxo, t: Txid, c: Coins): Utxo {
    if c.IsPruned() then u - {t} else u[t := c]
  }

  // ---------- inputs ----------

  function SpendIn(u: Utxo, p: OutPoint): Utxo {
    if Available(u, p) then Put(u, p.hash, SpendOutput(u[p.hash], p.n)) else u
  }

  function UndoOf(u: Utxo, p: OutPoint): TxInUndo {
    if Available(u, p) then SpendUndo(u[p.hash], p.n) else TxInUndo(NULL_OUT, false, 0, 0)
  }

  function SpendAll(u: Utxo, vin: seq<OutPoint>, k: nat): Utxo
    requires k <= |vin|
  {
    if k == 0 then u else SpendIn(SpendAll(u, vin, k - 1), vin[k - 1])
  }

  function UndosOf(u: Utxo, vin: seq<OutPoint>, k: nat): (r: seq<TxInUndo>)
    requires k <= |vin|
    ensures |r| == k
  {
    if k == 0 then [] else UndosOf(u, vin, k - 1) + [UndoOf(SpendAll(u, vin, k - 1), vin[k - 1])]
  }

  /** Restores inputs k-1, ..., 0; None when one of the sanity tests fails. */
  function UndoAll(u: Utxo, vin: seq<OutPoint>, undos: seq<TxInUndo>, k: nat): Option<Utxo>
    requires k <= |vin| == |undos|
    decreases k
  {
    if k == 0 then Some(u)
    else
      var p, undo := vin[k - 1], undos[k - 1];
      if p.OutPoint? && RestoreIsClean(Look(u, p.hash), p.n, undo)
      then UndoAll(Put(u, p.hash, RestoreOutput(Look(u, p.hash), p.n, undo)), vin, undos, k - 1)
      else None
  }

  predicate Distinct(vin: seq<OutPoint>) {
    forall i, j | 0 <= i < j < |vin| :: vin[i] != vin[j]
  }

  predicate HaveInputs(u: Utxo, vin: seq<OutPoint>) {
    forall p | p in vin :: Available(u, p)
  }

  lemma SpendInAvailability(u: Utxo, q: OutPoint, p: OutPoint)
    requires UtxoOk(u)
    ensures UtxoOk(SpendIn(u, q))
    ensures Available(SpendIn(u, q), p) <==> Available(u, p) && p != q
    ensures SpendIn(u, q).Keys <= u.Keys
  {
    if Available(u, q) {
      SpendKeepsClean(u[q.hash], q.n);
      if p.OutPoint? && p.hash == q.hash {
        SpendAvailability(u[q.hash], q.n, p.n);
      }
    }
  }

  lemma {:induction false} SpendAllAvailability(u: Utxo, vin: seq<OutPoint>, k: nat, p: OutPoint)
    requires UtxoOk(u) && k <= |vin|
    ensures UtxoOk(SpendAll(u, vin, k))
    ensures Available(SpendAll(u, vin, k), p) <==> Available(u, p) && p !in vin[..k]
    ensures SpendAll(u, vin, k).Keys <= u.Keys
  {
    if k > 0 {
      SpendAllAvailability(u, vin, k - 1, p);
      SpendInAvailability(SpendAll(u, vin, k - 1), vin[k - 1], p);
      assert vin[..k] == vin[..k - 1] + [vin[k - 1]];
    }
  }

  /** Undoing one available input of a good set. */
  lemma UndoInvertsSpendIn(u: Utxo, p: OutPoint)
    requires UtxoOk(u) && Available(u, p)
    ensures var s := SpendIn(u, p);
            && RestoreIsClean(Look(s, p.hash), p.n, UndoOf(u, p))
            && Put(s, p.hash, RestoreOutput(Look(s, p.hash), p.n, UndoOf(u, p))) == u
  {
    var s := SpendIn(u, p);
    SpendKeepsClean(u[p.hash], p.n);
    RestoreInvertsSpend(u[p.hash], p.n, Look(s, p.hash));
    assert !u[p.hash].IsPruned() by {
      assert u[p.hash].vout[|u[p.hash].vout| - 1] in u[p.hash].vout;
    }
  }

  lemma {:induction false} UndoAllInvertsSpendAll(u: Utxo, vin: seq<OutPoint>, undos: seq<TxInUndo>, k: nat)
    requires UtxoOk(u) && Distinct(vin) && HaveInputs(u, vin)
    requires k <= |vin| == |undos| && undos[..k] == UndosOf(u, vin, k)
    ensures UndoAll(SpendAll(u, vin, k), vin, undos, k) == Some(u)
  {
    if k > 0 {
      var before, p := SpendAll(u, vin, k - 1), vin[k - 1];
      SpendAllAvailability(u, vin, k - 1, p);
      assert undos[k - 1] == undos[..k][k - 1] == UndoOf(before, p);
      assert undos[..k - 1] == undos[..k][..k - 1] == UndosOf(u, vin, k - 1);
      assert p !in vin[..k - 1];
      UndoInvertsSpendIn(before, p);
      UndoAllInvertsSpendAll(u, vin, undos, k - 1);
    }
  }

  lemma RestoreAvailability(u: Utxo, q: OutPoint, undo: TxInUndo, p: OutPoint)
    requires q.OutPoint? && p != q
    requires Available(Put(u, q.hash, RestoreOutput(Look(u, q.hash), q.n, undo)), p)
    ensures Available(u, p)
  {
    if p.hash == q.hash {
      assert UndoBase(Look(u, q.hash), undo).IsAvailable(p.n);
    }
  }

  /** Undoing inputs makes nothing available but those inputs. */
  lemma {:induction false} UndoAllAvailability(u: Utxo, vin: seq<OutPoint>, undos: seq<TxInUndo>, k: nat, p: OutPoint)
    requires k <= |vin| == |undos|
    requires UndoAll(u, vin, undos, k).Some? && Available(UndoAll(u, vin, undos, k).value, p)
    ensures Available(u, p) || p in vin[..k]
    decreases k
  {
    hide Available, Put, RestoreOutput, RestoreIsClean, Look;
    if k > 0 {
      var q, undo := vin[k - 1], undos[k - 1];
      assert vin[..k] == vin[..k - 1] + [q];
      UndoAllAvailability(Put(u, q.hash, RestoreOutput(Look(u, q.hash), q.n, undo)), vin, undos, k - 1, p);
      if p !in vin[..k] {
        RestoreAvailability(u, q, undo, p);
      }
    }
  }

  // ---------- transactions ----------

  /** CheckTransaction, for what does not depend on the chain. */
  predicate TxOk(tx: Tx) {
    && tx.vin != [] && tx.vout != []
    && (forall o | o in tx.vout :: MIN_TXOUT_AMOUNT <= o.nValue <= MAX_MONEY)
    && (forall k: nat | k <= |tx.vout| :: MoneyRange(ValueOf(tx.vout[..k])))
    && Distinct(tx.vin)
    && (tx.IsCoinBase() || forall p | p in tx.vin :: p.OutPoint?)
  }

  /** The value held by the unspent outputs of a list. */
  function ValueOf(v: seq<TxOut>): int {
    if v == [] then 0
    else ValueOf(v[..|v| - 1]) + (if v[|v| - 1].IsNull() then 0 else v[|v| - 1].nValue)
  }

  function SpendInputs(u: Utxo, tx: Tx): Utxo {
    if tx.IsCoinBase() then u else SpendAll(u, tx.vin, |tx.vin|)
  }

  function ApplyTx(u: Utxo, tx: Tx, nHeight: int): Utxo {
    SpendInputs(u, tx)[tx.hash := FromTx(tx, nHeight)]
  }

  /** The outputs DisconnectBlock expects, up to versions the disk format cannot carry. */
  predicate MatchesTx(c: Coins, tx: Tx, nHeight: int) {
    (if tx.nVersion < 0 then c.(nVersion := tx.nVersion) else c) == FromTx(tx, nHeight)
  }

  function UndoTx(u: Utxo, tx: Tx, nHeight: int, fFirst: bool, undos: seq<TxInUndo>): Option<Utxo> {
    if tx.hash !in u || !MatchesTx(u[tx.hash], tx, nHeight) then None
    else if fFirst then Some(u - {tx.hash})
    else if |undos| != |tx.vin| then None
    else UndoAll(u - {tx.hash}, tx.vin, undos, |tx.vin|)
  }

  lemma ApplyTxKeepsOk(u: Utxo, tx: Tx, nHeight: int)
    requires UtxoOk(u) && TxOk(tx) && nHeight >= 1
    ensures UtxoOk(ApplyTx(u, tx, nHeight))
    ensures ApplyTx(u, tx, nHeight).Keys <= u.Keys + {tx.hash}
    ensures tx.hash in ApplyTx(u, tx, nHeight) && MatchesTx(ApplyTx(u, tx, nHeight)[tx.hash], tx, nHeight)
  {
    SpendAllAvailability(u, tx.vin, |tx.vin|, NullPoint);
    assert tx.vout[|tx.vout| - 1] in tx.vout;
  }

  /** What is unspent after a transaction: its own outputs, and what it did not spend. */
  lemma ApplyTxAvailability(u: Utxo, tx: Tx, nHeight: int, p: OutPoint)
    requires UtxoOk(u) && TxOk(tx) && p.OutPoint?
    ensures Available(ApplyTx(u, tx, nHeight), p) <==>
            if p.hash == tx.hash then p.n < |tx.vout| else Available(u, p) && p !in tx.vin
  {
    SpendAllAvailability(u, tx.vin, |tx.vin|, p);
    assert tx.vin[..|tx.vin|] == tx.vin;
    if p.hash == tx.hash && p.n < |tx.vout| {
      assert tx.vout[p.n] in tx.vout;
    }
    if tx.IsCoinBase() { assert p !in tx.vin; }
  }

  /** One transaction is undone exactly when it replaced nothing still unspent. */
  lemma UndoTxInvertsApplyTx(u: Utxo, tx: Tx, nHeight: int)
    requires UtxoOk(u) && TxOk(tx) && nHeight >= 1
    requires tx.IsCoinBase() || HaveInputs(u, tx.vin)
    ensures var r := UndoTx(ApplyTx(u, tx, nHeight), tx, nHeight, tx.IsCoinBase(), UndosOf(u, tx.vin, |tx.vin|));
            r == Some(u) <==> tx.hash !in SpendInputs(u, tx)
  {
    var s := SpendInputs(u, tx);
    var a := ApplyTx(u, tx, nHeight);
    var undos := UndosOf(u, tx.vin, |tx.vin|);
    ApplyTxKeepsOk(u, tx, nHeight);
    assert undos[..|tx.vin|] == undos;
    if tx.hash !in s {
      assert a - {tx.hash} == s;
      if !tx.IsCoinBase() {
        UndoAllInvertsSpendAll(u, tx.vin, undos, |tx.vin|);
      }
    } else {
      var _ := UndoLosesOverwritten(u, tx, nHeight, undos);
    }
  }

  /** An overwritten record has an unspent output that undoing does not bring back. */
  lemma UndoLosesOverwritten(u: Utxo, tx: Tx, nHeight: int, undos: seq<TxInUndo>) returns (p: OutPoint)
    requires UtxoOk(u) && TxOk(tx) && tx.hash in SpendInputs(u, tx)
    ensures p.OutPoint? && p.hash == tx.hash && Available(u, p)
    ensures var r := UndoTx(ApplyTx(u, tx, nHeight), tx, nHeight, tx.IsCoinBase(), undos);
            r.Some? ==> !Available(r.value, p)
  {
    SpendAllAvailability(u, tx.vin, |tx.vin|, NullPoint);
    p := OutPoint(tx.hash, |SpendInputs(u, tx)[tx.hash].vout| - 1);
    SpendAllAvailability(u, tx.vin, |tx.vin|, p);
    assert tx.vin[..|tx.vin|] == tx.vin;
    var a := ApplyTx(u, tx, nHeight) - {tx.hash};
    var r := UndoTx(ApplyTx(u, tx, nHeight), tx, nHeight, tx.IsCoinBase(), undos);
    if r.Some? && !tx.IsCoinBase() && Available(r.value, p) {
      UndoAllAvailability(a, tx.vin, undos, |tx.vin|, p);
    }
  }

  // ---------- blocks ----------

  /** CheckBlock, for what the unspent set depends on. */
  predicate BlockOk(txs: seq<Tx>) {
    && txs != [] && txs[0].IsCoinBase()
    && (forall i | 1 <= i < |txs| :: !txs[i].IsCoinBase())
    && (forall i | 0 <= i < |txs| :: TxOk(txs[i]))
    && (forall i, j | 0 <= i < j < |txs| :: txs[i].hash != txs[j].hash)
  }

  lemma BlockOkAt(txs: seq<Tx>, i: nat)
    requires BlockOk(txs) && i < |txs|
    ensures TxOk(txs[i]) && (txs[i].IsCoinBase() <==> i == 0)
    ensures forall j | 0 <= j < i :: txs[j].hash != txs[i].hash
  {
  }

  function ApplyTxs(u: Utxo, txs: seq<Tx>, nHeight: int, k: nat): Utxo
    requires k <= |txs|
  {
    if k == 0 then u else ApplyTx(ApplyTxs(u, txs, nHeight, k - 1), txs[k - 1], nHeight)
  }

  function ApplyBlock(u: Utxo, txs: seq<Tx>, nHeight: int): Utxo {
    ApplyTxs(u, txs, nHeight, |txs|)
  }

  /** Undo data for all but the coinbase. */
  function BlockUndo(u: Utxo, txs: seq<Tx>, nHeight: int, k: nat): (r: seq<seq<TxInUndo>>)
    requires k <= |txs|
    ensures |r| == if k == 0 then 0 else k - 1
  {
    if k <= 1 then []
    else BlockUndo(u, txs, nHeight, k - 1) + [UndosOf(ApplyTxs(u, txs, nHeight, k - 1), txs[k - 1].vin, |txs[k - 1].vin|)]
  }

  /** Undoes transactions k-1, ..., 0. */
  function UndoTxs(u: Utxo, txs: seq<Tx>, nHeight: int, vundo: seq<seq<TxInUndo>>, k: nat): Option<Utxo>
    requires k <= |txs| && |vundo| + 1 == |txs|
    decreases k
  {
    if k == 0 then Some(u)
    else
      match UndoTx(u, txs[k - 1], nHeight, k == 1, StoredUndo(vundo, k))
      case None => None
      case Some(u') => UndoTxs(u', txs, nHeight, vundo, k - 1)
  }

  function UndoBlock(u: Utxo, txs: seq<Tx>, nHeight: int, vundo: seq<seq<TxInUndo>>): Option<Utxo> {
    if |vundo| + 1 != |txs| then None else UndoTxs(u, txs, nHeight, vundo, |txs|)
  }

  /** Every input of each of the first k transactions is unspent when its turn comes. */
  predicate InputsReady(u: Utxo, txs: seq<Tx>, nHeight: int, k: nat)
    requires k <= |txs|
  {
    k <= 1 || (InputsReady(u, txs, nHeight, k - 1) && HaveInputs(ApplyTxs(u, txs, nHeight, k - 1), txs[k - 1].vin))
  }

  /** The BIP 30 test, made on the state before the block. */
  predicate NoDuplicates(u: Utxo, txs: seq<Tx>) {
    forall i | 0 <= i < |txs| :: txs[i].hash !in u
  }

  /** Transaction i replaces a record that still has unspent outputs. */
  predicate Overwrites(u: Utxo, txs: seq<Tx>, nHeight: int, i: nat)
    requires i < |txs|
  {
    txs[i].hash in SpendInputs(ApplyTxs(u, txs, nHeight, i), txs[i])
  }

  predicate NoOverwrites(u: Utxo, txs: seq<Tx>, nHeight: int, k: nat)
    requires k <= |txs|
  {
    k == 0 || (NoOverwrites(u, txs, nHeight, k - 1) && !Overwrites(u, txs, nHeight, k - 1))
  }

  lemma {:induction false} ApplyTxsKeepsOk(u: Utxo, txs: seq<Tx>, nHeight: int, k: nat)
    requires UtxoOk(u) && BlockOk(txs) && nHeight >= 1 && k <= |txs|
    ensures UtxoOk(ApplyTxs(u, txs, nHeight, k))
    ensures forall t | t in ApplyTxs(u, txs, nHeight, k) :: t in u || exists j :: 0 <= j < k && txs[j].hash == t
  {
    if k > 0 {
      ApplyTxsKeepsOk(u, txs, nHeight, k - 1);
      ApplyTxKeepsOk(ApplyTxs(u, txs, nHeight, k - 1), txs[k - 1], nHeight);
    }
  }

  lemma {:induction false} NoDuplicatesMeansNoOverwrites(u: Utxo, txs: seq<Tx>, nHeight: int, k: nat)
    requires UtxoOk(u) && BlockOk(txs) && nHeight >= 1 && k <= |txs|
    requires NoDuplicates(u, txs)
    ensures NoOverwrites(u, txs, nHeight, k)
  {
    hide TxOk;
    if k > 0 {
      NoDuplicatesMeansNoOverwrites(u, txs, nHeight, k - 1);
      var before, tx := ApplyTxs(u, txs, nHeight, k - 1), txs[k - 1];
      ApplyTxsKeepsOk(u, txs, nHeight, k - 1);
      SpendAllAvailability(before, tx.vin, |tx.vin|, NullPoint);
    }
  }

  lemma BlockUndoPrefix(u: Utxo, txs: seq<Tx>, nHeight: int, k: nat, m: nat)
    requires k <= m <= |txs|
    ensures BlockUndo(u, txs, nHeight, k) <= BlockUndo(u, txs, nHeight, m)
    decreases m
  {
    if k < m { BlockUndoPrefix(u, txs, nHeight, k, m - 1); }
  }

  lemma StillLost(before: Utxo, start: Utxo, tx: Tx, nHeight: int, fFirst: bool, undos: seq<TxInUndo>, p: OutPoint)
    requires UtxoOk(before) && TxOk(tx) && (fFirst <==> tx.IsCoinBase()) && p.OutPoint? && tx.hash != p.hash
    requires Available(ApplyTx(before, tx, nHeight), p) && !Available(start, p)
    ensures Available(before, p)
    ensures var r := UndoTx(start, tx, nHeight, fFirst, undos);
            r.Some? ==> !Available(r.value, p)
  {
    hide UtxoOk, TxOk, ApplyTx;
    ApplyTxAvailability(before, tx, nHeight, p);
    var r := UndoTx(start, tx, nHeight, fFirst, undos);
    assert !Available(start - {tx.hash}, p);
    if r.Some? && !fFirst && Available(r.value, p) {
      UndoAllAvailability(start - {tx.hash}, tx.vin, undos, |tx.vin|, p);
    }
  }

  /** A point transaction i lost is not brought back by undoing the ones before it. */
  lemma {:induction false} LostStaysLost(u: Utxo, start: Utxo, txs: seq<Tx>, nHeight: int, vundo: seq<seq<TxInUndo>>, k: nat, p: OutPoint)
    requires UtxoOk(u) && BlockOk(txs) && nHeight >= 1
    requires k <= |txs| && |vundo| + 1 == |txs|
    requires p.OutPoint? && (forall j | 0 <= j < k :: txs[j].hash != p.hash)
    requires Available(ApplyTxs(u, txs, nHeight, k), p) && !Available(start, p)
    ensures Available(u, p)
    ensures var r := UndoTxs(start, txs, nHeight, vundo, k);
            r.Some? ==> !Available(r.value, p)
    decreases k
  {
    hide Available, BlockOk, UtxoOk, TxOk, UndoTx, ApplyTx;
    if k > 0 {
      var tx, before := txs[k - 1], ApplyTxs(u, txs, nHeight, k - 1);
      ApplyTxsKeepsOk(u, txs, nHeight, k - 1);
      BlockOkAt(txs, k - 1);
      StillLost(before, start, tx, nHeight, k == 1, StoredUndo(vundo, k), p);
      var r := UndoTx(start, tx, nHeight, k == 1, StoredUndo(vundo, k));
      if r.Some? {
        LostStaysLost(u, r.value, txs, nHeight, vundo, k - 1, p);
      } else {
        StillThere(u, txs, nHeight, k - 1, p);
      }
    }
  }

  lemma {:induction false} StillThere(u: Utxo, txs: seq<Tx>, nHeight: int, k: nat, p: OutPoint)
    requires UtxoOk(u) && BlockOk(txs) && nHeight >= 1 && k <= |txs|
    requires p.OutPoint? && (forall j | 0 <= j < k :: txs[j].hash != p.hash) && Available(ApplyTxs(u, txs, nHeight, k), p)
    ensures Available(u, p)
  {
    hide Available, BlockOk, UtxoOk, TxOk, ApplyTx;
    if k > 0 {
      ApplyTxsKeepsOk(u, txs, nHeight, k - 1);
      BlockOkAt(txs, k - 1);
      ApplyTxAvailability(ApplyTxs(u, txs, nHeight, k - 1), txs[k - 1], nHeight, p);
      StillThere(u, txs, nHeight, k - 1, p);
    }
  }

  function StoredUndo(vundo: seq<seq<TxInUndo>>, k: nat): seq<TxInUndo>
    requires 1 <= k <= |vundo| + 1
  {
    if k == 1 then [] else vundo[k - 2]
  }

  lemma UndoLastTx(u: Utxo, txs: seq<Tx>, nHeight: int, vundo: seq<seq<TxInUndo>>, k: nat)
    requires UtxoOk(u) && BlockOk(txs) && nHeight >= 1
    requires 1 <= k <= |txs| && vundo == BlockUndo(u, txs, nHeight, |txs|)
    requires InputsReady(u, txs, nHeight, k)
    ensures var before := ApplyTxs(u, txs, nHeight, k - 1);
            UndoTx(ApplyTxs(u, txs, nHeight, k), txs[k - 1], nHeight, k == 1, StoredUndo(vundo, k)) == Some(before)
            <==> !Overwrites(u, txs, nHeight, k - 1)
  {
    var before, tx := ApplyTxs(u, txs, nHeight, k - 1), txs[k - 1];
    ApplyTxsKeepsOk(u, txs, nHeight, k - 1);
    BlockUndoPrefix(u, txs, nHeight, k, |txs|);
    if k > 1 {
      assert vundo[k - 2] == BlockUndo(u, txs, nHeight, k)[k - 2] == UndosOf(before, tx.vin, |tx.vin|);
    }
    UndoTxInvertsApplyTx(before, tx, nHeight);
  }

  lemma LostAt(u: Utxo, txs: seq<Tx>, nHeight: int, undos: seq<TxInUndo>, k: nat) returns (p: OutPoint)
    requires UtxoOk(u) && BlockOk(txs) && nHeight >= 1
    requires 1 <= k <= |txs| && Overwrites(u, txs, nHeight, k - 1)
    ensures p.OutPoint? && p.hash == txs[k - 1].hash && Available(ApplyTxs(u, txs, nHeight, k - 1), p)
    ensures var r := UndoTx(ApplyTxs(u, txs, nHeight, k), txs[k - 1], nHeight, k == 1, undos);
            r.Some? ==> !Available(r.value, p)
  {
    BlockOkAt(txs, k - 1);
    ApplyTxsKeepsOk(u, txs, nHeight, k - 1);
    hide BlockOk, TxOk, Available, UtxoOk;
    p := UndoLosesOverwritten(ApplyTxs(u, txs, nHeight, k - 1), txs[k - 1], nHeight, undos);
  }

  /** An overwriting transaction spoils everything undone after it. */
  lemma OverwriteSpoilsUndo(u: Utxo, txs: seq<Tx>, nHeight: int, vundo: seq<seq<TxInUndo>>, k: nat)
    requires UtxoOk(u) && BlockOk(txs) && nHeight >= 1
    requires 1 <= k <= |txs| && |vundo| + 1 == |txs|
    requires Overwrites(u, txs, nHeight, k - 1)
    ensures UndoTxs(ApplyTxs(u, txs, nHeight, k), txs, nHeight, vundo, k) != Some(u)
  {
    hide ApplyTxs, UndoTx, Available, UtxoOk, BlockOk, Overwrites;
    BlockOkAt(txs, k - 1);
    var p := LostAt(u, txs, nHeight, StoredUndo(vundo, k), k);
    var r := UndoTx(ApplyTxs(u, txs, nHeight, k), txs[k - 1], nHeight, k == 1, StoredUndo(vundo, k));
    if r.Some? {
      LostStaysLost(u, r.value, txs, nHeight, vundo, k - 1, p);
    }
  }

  lemma {:induction false} UndoTxsInvertsApplyTxs(u: Utxo, txs: seq<Tx>, nHeight: int, vundo: seq<seq<TxInUndo>>, k: nat)
    requires UtxoOk(u) && BlockOk(txs) && nHeight >= 1
    requires k <= |txs| && vundo == BlockUndo(u, txs, nHeight, |txs|)
    requires InputsReady(u, txs, nHeight, k)
    ensures UndoTxs(ApplyTxs(u, txs, nHeight, k), txs, nHeight, vundo, k) == Some(u)
            <==> NoOverwrites(u, txs, nHeight, k)
  {
    hide Overwrites, UndoTx, ApplyTx, BlockOk, UtxoOk, BlockUndo;
    if k > 0 {
      if Overwrites(u, txs, nHeight, k - 1) {
        OverwriteSpoilsUndo(u, txs, nHeight, vundo, k);
      } else {
        UndoLastTx(u, txs, nHeight, vundo, k);
        UndoTxsInvertsApplyTxs(u, txs, nHeight, vundo, k - 1);
      }
    }
  }

  /** Disconnecting right after connecting gives back the very same unspent set, and passes
      every sanity test, exactly when the block replaced no unspent record. */
  lemma UndoBlockInvertsApplyBlock(u: Utxo, txs: seq<Tx>, nHeight: int)
    requires UtxoOk(u) && BlockOk(txs) && nHeight >= 1 && InputsReady(u, txs, nHeight, |txs|)
    ensures UndoBlock(ApplyBlock(u, txs, nHeight), txs, nHeight, BlockUndo(u, txs, nHeight, |txs|)) == Some(u)
            <==> NoOverwrites(u, txs, nHeight, |txs|)
    ensures NoDuplicates(u, txs) ==>
            UndoBlock(ApplyBlock(u, txs, nHeight), txs, nHeight, BlockUndo(u, txs, nHeight, |txs|)) == Some(u)
  {
    UndoTxsInvertsApplyTxs(u, txs, nHeight, BlockUndo(u, txs, nHeight, |txs|), |txs|);
    if NoDuplicates(u, txs) {
      NoDuplicatesMeansNoOverwrites(u, txs, nHeight, |txs|);
    }
  }
}
