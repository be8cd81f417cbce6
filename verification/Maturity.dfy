/** What a branch makes of its coinbases (main.cpp, CheckInputs; main.h, CCoins): for 3000 blocks
    nothing spends them, while other outputs can be spent at once. */
module Maturity {
  import opened CoinRecords
  import opened UtxoSet
  import opened MoneySupply
  import opened BlockTree
  import opened Validation
  import opened Chain

  // ---------- coinbases are held back ----------

  /** The record of transaction c is that of a coinbase of height h or above. */
  ghost predicate Held(u: Utxo, c: Txid, h: int) {
    c in u && u[c].fCoinBase && u[c].nHeight >= h
  }

  lemma {:induction false} SpendsElsewhere(u: Utxo, vin: seq<OutPoint>, k: nat, c: Txid)
    requires k <= |vin| && forall p | p in vin[..k] :: p.OutPoint? ==> p.hash != c
    ensures c in SpendAll(u, vin, k) <==> c in u
    ensures c in u ==> SpendAll(u, vin, k)[c] == u[c]
  {
    if k > 0 {
      assert vin[..k] == vin[..k - 1] + [vin[k - 1]];
      SpendsElsewhere(u, vin, k - 1, c);
    }
  }

  lemma {:induction false} NoInputIsHeld(u: Utxo, vin: seq<OutPoint>, nSpendHeight: int, k: nat, c: Txid, h: int)
    requires k <= |vin| && InputsInRange(u, vin, nSpendHeight, k) && Held(u, c, h) && nSpendHeight < h + 3000
    ensures forall p | p in vin[..k] :: p.OutPoint? && p.hash != c
  {
    if k > 0 {
      assert vin[..k] == vin[..k - 1] + [vin[k - 1]];
      NoInputIsHeld(u, vin, nSpendHeight, k - 1, c, h);
    }
  }

  /** A transaction that passes too early spends no output of c, and leaves its record held. */
  lemma TxLeavesHeld(u: Utxo, tx: Tx, nHeight: int, c: Txid, h: int)
    requires InputsPass(u, tx, nHeight) && Held(u, c, h) && h <= nHeight < h + 3000
    requires tx.hash == c ==> tx.IsCoinBase()
    ensures Held(ApplyTx(u, tx, nHeight), c, h)
    ensures forall p | p in tx.vin && p.OutPoint? :: p.hash != c
  {
    if !tx.IsCoinBase() {
      assert tx.vin[..|tx.vin|] == tx.vin;
      NoInputIsHeld(u, tx.vin, nHeight, |tx.vin|, c, h);
      SpendsElsewhere(u, tx.vin, |tx.vin|, c);
    }
  }

  /** So do the transactions from `from` on of a block that passes. */
  lemma {:induction false} TxsLeaveHeld(u: Utxo, txs: seq<Tx>, nHeight: int, from: nat, k: nat, c: Txid, h: int)
    requires from <= k <= |txs| && BlockPasses(u, txs, nHeight, k) && h <= nHeight < h + 3000
    requires Held(ApplyTxs(u, txs, nHeight, from), c, h)
    requires forall i | from <= i < k :: txs[i].hash == c ==> txs[i].IsCoinBase()
    ensures Held(ApplyTxs(u, txs, nHeight, k), c, h)
    ensures forall i | from <= i < k :: forall p | p in txs[i].vin && p.OutPoint? :: p.hash != c
    decreases k
  {
    hide Held, InputsPass, ApplyTx, Tx.IsCoinBase;
    if from < k {
      TxsLeaveHeld(u, txs, nHeight, from, k - 1, c, h);
      TxLeavesHeld(ApplyTxs(u, txs, nHeight, k - 1), txs[k - 1], nHeight, c, h);
    }
  }

  /** If a block that BIP 30 does not test has a transaction of that id, it is a coinbase. As ids
      are hashes, no other transaction has the id of a coinbase. */
  ghost predicate ReusedByCoinbase(b: CBlockIndex, c: Txid) {
    Bip30Exempt(b.nHeight, b.hash) ==> forall i | 0 <= i < |b.vtx| && b.vtx[i].hash == c :: b.vtx[i].IsCoinBase()
  }

  /** The coinbase's own block: the record is made, and the rest of the block leaves it alone. */
  lemma OwnBlockHolds(a: CBlockIndex, c: Txid)
    requires Sound(a) && c == a.vtx[0].hash
    ensures Held(Replay(a), c, a.nHeight)
    ensures forall i | 0 <= i < |a.vtx| :: forall p | p in a.vtx[i].vin && p.OutPoint? :: p.hash != c
  {
    var u := Replay(a.pprev);
    assert ApplyTxs(u, a.vtx, a.nHeight, 0) == u;
    assert Held(ApplyTxs(u, a.vtx, a.nHeight, 1), c, a.nHeight);
    assert forall p | p in a.vtx[0].vin :: !p.OutPoint?;
    hide Held;
    TxsLeaveHeld(u, a.vtx, a.nHeight, 1, |a.vtx|, c, a.nHeight);
  }

  lemma LaterBlockHolds(b: CBlockIndex, c: Txid, h: int)
    requires Sound(b) && ReusedByCoinbase(b, c) && Held(Replay(b.pprev), c, h) && h <= b.nHeight < h + 3000
    ensures Held(Replay(b), c, h)
    ensures forall i | 0 <= i < |b.vtx| :: forall p | p in b.vtx[i].vin && p.OutPoint? :: p.hash != c
  {
    hide BlockOk, BlockPasses, Tx.IsCoinBase;
    assert ApplyTxs(Replay(b.pprev), b.vtx, b.nHeight, 0) == Replay(b.pprev);
    TxsLeaveHeld(Replay(b.pprev), b.vtx, b.nHeight, 0, |b.vtx|, c, h);
  }

  ghost function CoinbaseId(b: CBlockIndex): Txid {
    if b.vtx == [] then 0 else b.vtx[0].hash
  }

  lemma {:induction false} CoinbaseStaysHeld(b: CBlockIndex, h: nat)
    requires b.Linked() && 0 < h <= b.nHeight < h + 3000 && forall g | h <= g <= b.nHeight :: Sound(b.Ancestor(g))
    requires forall g | h < g <= b.nHeight :: ReusedByCoinbase(b.Ancestor(g), CoinbaseId(b.Ancestor(h)))
    ensures Held(Replay(b), CoinbaseId(b.Ancestor(h)), h)
    ensures forall i | 0 <= i < |b.vtx| :: forall p | p in b.vtx[i].vin && p.OutPoint? :: p.hash != CoinbaseId(b.Ancestor(h))
    decreases b.nHeight
  {
    hide Held, Replay, ReusedByCoinbase, BlockAccepted;
    AncestorSelf(b);
    if h == b.nHeight {
      assert CoinbaseId(b) == b.vtx[0].hash by { SoundHasCoinbase(b); }
      OwnBlockHolds(b, CoinbaseId(b));
    } else {
      assert forall g | h <= g <= b.pprev.nHeight :: b.Ancestor(g) == b.pprev.Ancestor(g);
      CoinbaseStaysHeld(b.pprev, h);
      LaterBlockHolds(b, CoinbaseId(b.Ancestor(h)), h);
    }
  }

  lemma SoundHasCoinbase(b: CBlockIndex)
    requires Sound(b)
    ensures b.vtx != []
  {
  }

  /** Coinbase maturity, along any branch: no transaction of a block that passes there, fewer
      than 3000 blocks above a coinbase, spends an output of it. */
  lemma CoinbaseMatures(b: CBlockIndex, h: nat, i: nat, p: OutPoint)
    requires b.Linked() && 0 < h <= b.nHeight < h + 3000 && forall g | h <= g <= b.nHeight :: Sound(b.Ancestor(g))
    requires forall g | h < g <= b.nHeight :: ReusedByCoinbase(b.Ancestor(g), CoinbaseId(b.Ancestor(h)))
    requires i < |b.vtx| && p in b.vtx[i].vin && p.OutPoint?
    ensures p.hash != CoinbaseId(b.Ancestor(h))
  {
    hide Sound;
    CoinbaseStaysHeld(b, h);
  }

  /** So a block with such a spend does not pass on top of its parent's state. */
  lemma EarlySpendIsRefused(b: CBlockIndex, h: nat, i: nat, p: OutPoint)
    requires b.Linked() && b.pprev != null && 0 < h < b.nHeight < h + 3000 && forall g | h <= g < b.nHeight :: Sound(b.Ancestor(g))
    requires forall g | h < g <= b.nHeight :: ReusedByCoinbase(b.Ancestor(g), CoinbaseId(b.Ancestor(h)))
    requires i < |b.vtx| && p in b.vtx[i].vin && p.OutPoint? && p.hash == CoinbaseId(b.Ancestor(h))
    ensures !BlockAccepted(Replay(b.pprev), b.vtx, b.nHeight, b.nBits, b.hash)
  {
    hide BlockAccepted, Replay, ReusedByCoinbase;
    AncestorSelf(b);
    if BlockAccepted(Replay(b.pprev), b.vtx, b.nHeight, b.nBits, b.hash) {
      CoinbaseMatures(b, h, i, p);
    }
  }

  // ---------- nothing else is ----------

  /** The tests on inputs that no coinbase holds back have the same outcome at every height. */
  lemma {:induction false} HeightDoesNotMatter(u: Utxo, vin: seq<OutPoint>, s: int, t: int, k: nat)
    requires k <= |vin|
    requires forall p | p in vin && Available(u, p) && u[p.hash].fCoinBase :: s >= u[p.hash].nHeight + 3000 && t >= u[p.hash].nHeight + 3000
    ensures InputsInRange(u, vin, s, k) <==> InputsInRange(u, vin, t, k)
  {
    hide Available, OutputValue, InputValue;
    if k > 0 { HeightDoesNotMatter(u, vin, s, t, k - 1); }
  }

  /** Where a record came from: transaction i of the block at height g of a branch. */
  ghost predicate CameFrom(c: Coins, tx: Tx, fFirst: bool, g: int) {
    && c.nHeight == g && c.nVersion == tx.nVersion && c.fCoinBase == fFirst && |c.vout| <= |tx.vout|
    && forall n | 0 <= n < |c.vout| :: c.vout[n].IsNull() || c.vout[n] == tx.vout[n]
  }

  ghost predicate HasSource(t: Txid, c: Coins, txs: seq<Tx>, k: nat, g: int) {
    exists i :: 0 <= i < k && i < |txs| && txs[i].hash == t && CameFrom(c, txs[i], i == 0, g)
  }

  /** What is left of a record is so of whatever it came from. */
  ghost predicate RestOf(c: Coins, d: Coins) {
    && c.nHeight == d.nHeight && c.nVersion == d.nVersion && c.fCoinBase == d.fCoinBase && |c.vout| <= |d.vout|
    && forall n | 0 <= n < |c.vout| :: c.vout[n].IsNull() || c.vout[n] == d.vout[n]
  }

  lemma SpendLeavesRest(c: Coins, n: nat)
    requires c.IsAvailable(n)
    ensures RestOf(SpendOutput(c, n), c)
  {
    var v := c.vout[n := NULL_OUT];
    assert Trim(v) <= v;
    assert NULL_OUT.IsNull();
  }

  lemma {:induction false} SpendsLeaveRest(u: Utxo, vin: seq<OutPoint>, k: nat, t: Txid)
    requires k <= |vin| && t in SpendAll(u, vin, k)
    ensures t in u && RestOf(SpendAll(u, vin, k)[t], u[t])
  {
    hide SpendOutput;
    if k > 0 {
      var before, p := SpendAll(u, vin, k - 1), vin[k - 1];
      if Available(before, p) { SpendLeavesRest(before[p.hash], p.n); }
      SpendsLeaveRest(u, vin, k - 1, t);
    }
  }

  lemma RestKeepsSource(c: Coins, d: Coins, t: Txid, txs: seq<Tx>, k: nat, g: int)
    requires RestOf(c, d) && HasSource(t, d, txs, k, g)
    ensures HasSource(t, c, txs, k, g)
  {
    var i :| 0 <= i < k && i < |txs| && txs[i].hash == t && CameFrom(d, txs[i], i == 0, g);
    assert CameFrom(c, txs[i], i == 0, g);
  }

  lemma OwnSource(txs: seq<Tx>, k: nat, g: int)
    requires BlockOk(txs) && k < |txs|
    ensures HasSource(txs[k].hash, FromTx(txs[k], g), txs, k + 1, g)
  {
    BlockOkAt(txs, k);
    assert CameFrom(FromTx(txs[k], g), txs[k], k == 0, g);
  }

  /** After part of a block a record is what is left of one from before, or of a transaction of
      the block. */
  lemma {:induction false} TxsHaveSources(u: Utxo, txs: seq<Tx>, g: int, k: nat, t: Txid)
    requires BlockOk(txs) && k <= |txs| && t in ApplyTxs(u, txs, g, k)
    ensures HasSource(t, ApplyTxs(u, txs, g, k)[t], txs, k, g) || (t in u && RestOf(ApplyTxs(u, txs, g, k)[t], u[t]))
  {
    if k > 0 {
      var before, tx := ApplyTxs(u, txs, g, k - 1), txs[k - 1];
      assert ApplyTxs(u, txs, g, k) == SpendInputs(before, tx)[tx.hash := FromTx(tx, g)];
      if t == tx.hash {
        OwnSource(txs, k - 1, g);
      } else {
        InputsLeaveRest(before, tx, t);
        TxsHaveSources(u, txs, g, k - 1, t);
        hide BlockOk, SpendInputs, ApplyTxs;
        var c := SpendInputs(before, tx)[t];
        if HasSource(t, before[t], txs, k - 1, g) {
          RestKeepsSource(c, before[t], t, txs, k - 1, g);
          MoreSources(t, c, txs, k - 1, g);
        }
      }
    } else {
      assert RestOf(u[t], u[t]);
    }
  }

  lemma InputsLeaveRest(u: Utxo, tx: Tx, t: Txid)
    requires t in SpendInputs(u, tx)
    ensures t in u && RestOf(SpendInputs(u, tx)[t], u[t])
  {
    if !tx.IsCoinBase() { SpendsLeaveRest(u, tx.vin, |tx.vin|, t); }
  }

  lemma MoreSources(t: Txid, c: Coins, txs: seq<Tx>, k: nat, g: int)
    requires HasSource(t, c, txs, k, g)
    ensures HasSource(t, c, txs, k + 1, g)
  {
  }

  ghost predicate SourceAt(b: CBlockIndex, t: Txid, c: Coins, h: nat)
    requires b.Linked()
  {
    0 < h <= b.nHeight && HasSource(t, c, b.Ancestor(h).vtx, |b.Ancestor(h).vtx|, h)
  }

  /** Every record of a branch's state is what is left of some transaction of the branch, with
      that one's height, version and coinbase flag. */
  lemma {:induction false} RecordsHaveSources(b: CBlockIndex, t: Txid) returns (h: nat)
    requires b.Linked() && (forall g | 0 < g <= b.nHeight :: Sound(b.Ancestor(g))) && t in Replay(b)
    ensures SourceAt(b, t, Replay(b)[t], h)
    decreases b.nHeight
  {
    RootIsAtZero(b);
    AncestorSelf(b);
    assert b.pprev != null && Sound(b);
    TxsHaveSources(Replay(b.pprev), b.vtx, b.nHeight, |b.vtx|, t);
    h := b.nHeight;
    var c := Replay(b)[t];
    if !HasSource(t, c, b.vtx, |b.vtx|, b.nHeight) {
      assert forall g | 0 < g <= b.pprev.nHeight :: b.Ancestor(g) == b.pprev.Ancestor(g);
      h := RecordsHaveSources(b.pprev, t);
      RestKeepsSource(c, Replay(b.pprev)[t], t, b.Ancestor(h).vtx, |b.Ancestor(h).vtx|, h);
    }
  }

  /** The id of no coinbase of the branch. */
  ghost predicate NoCoinbaseOf(b: CBlockIndex, t: Txid)
    requires b.Linked()
  {
    forall h | 0 < h <= b.nHeight :: CoinbaseId(b.Ancestor(h)) != t
  }

  lemma OtherRecordIsNotHeld(b: CBlockIndex, t: Txid)
    requires b.Linked() && (forall g | 0 < g <= b.nHeight :: Sound(b.Ancestor(g))) && t in Replay(b) && NoCoinbaseOf(b, t)
    ensures !Replay(b)[t].fCoinBase
  {
    hide Replay, Sound;
    var h := RecordsHaveSources(b, t);
    var txs := b.Ancestor(h).vtx;
    var i :| 0 <= i < |txs| && txs[i].hash == t && CameFrom(Replay(b)[t], txs[i], i == 0, h);
    assert CoinbaseId(b.Ancestor(h)) != t;
  }

  /** The outputs of other transactions are held back by no height: a transaction that spends
      only such ones passes at all heights on top of a branch, or at none. */
  lemma OthersAreFree(b: CBlockIndex, tx: Tx, s: int, t: int)
    requires b.Linked() && forall g | 0 < g <= b.nHeight :: Sound(b.Ancestor(g))
    requires forall p | p in tx.vin && p.OutPoint? :: NoCoinbaseOf(b, p.hash)
    ensures InputsPass(Replay(b), tx, s) <==> InputsPass(Replay(b), tx, t)
  {
    hide Sound, NoCoinbaseOf, Replay;
    var u := Replay(b);
    forall p | p in tx.vin && Available(u, p) ensures !u[p.hash].fCoinBase {
      OtherRecordIsNotHeld(b, p.hash);
    }
    HeightDoesNotMatter(u, tx.vin, s, t, |tx.vin|);
  }
}
