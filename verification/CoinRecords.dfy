/** Transactions, the pruned per-transaction coin record `CCoins`, and the undo
    record `CTxInUndo` (main.h).

    A txid stands for the value of CTransaction::GetHash and is carried as a field. */
module CoinRecords {
  type byte = x: int | 0 <= x < 256
  type Txid = nat

  const COIN := 100000000
  const CENT := 1000000
  const MAX_MONEY := 2000000000 * COIN
  const MIN_TX_FEE := CENT
  const MIN_TXOUT_AMOUNT := MIN_TX_FEE
  const COINBASE_MATURITY := 3000

  predicate MoneyRange(v: int) { 0 <= v <= MAX_MONEY }

  datatype TxOut = TxOut(nValue: int, scriptPubKey: seq<byte>) {
    predicate IsNull() { nValue == -1 }
  }

  const NULL_OUT := TxOut(-1, [])

  /** The reference to an output; the null reference marks a coinbase input. */
  datatype OutPoint = OutPoint(hash: Txid, n: nat) | NullPoint

  datatype Tx = Tx(hash: Txid, nVersion: int, vin: seq<OutPoint>, vout: seq<TxOut>, nBytes: nat) {
    predicate IsCoinBase() { |vin| == 1 && vin[0].NullPoint? }
  }

  datatype Coins = Coins(fCoinBase: bool, vout: seq<TxOut>, nHeight: int, nVersion: int) {
    predicate IsAvailable(n: nat) { n < |vout| && !vout[n].IsNull() }
    predicate IsPruned() { forall o | o in vout :: o.IsNull() }
  }

  const EMPTY_COINS := Coins(false, [], 0, 0)

  datatype TxInUndo = TxInUndo(txout: TxOut, fCoinBase: bool, nHeight: int, nVersion: int)

  function FromTx(tx: Tx, nHeight: int): Coins {
    Coins(tx.IsCoinBase(), tx.vout, nHeight, tx.nVersion)
  }

  /** What Cleanup leaves: the longest prefix that does not end in a spent output. */
  function Trim(v: seq<TxOut>): (r: seq<TxOut>)
    ensures r <= v
    ensures r != [] ==> !r[|r| - 1].IsNull()
    ensures forall i | |r| <= i < |v| :: v[i].IsNull()
  {
    if v != [] && v[|v| - 1].IsNull() then Trim(v[..|v| - 1]) else v
  }

  /** A record as it stands in the unspent set: something is unspent, nothing spent at the
      end, spent outputs are wiped, and it was created above the genesis block. */
  predicate Clean(c: Coins) {
    && c.vout != []
    && !c.vout[|c.vout| - 1].IsNull()
    && (forall o | o in c.vout && o.IsNull() :: o == NULL_OUT)
    && c.nHeight >= 1
  }

  function SpendOutput(c: Coins, n: nat): Coins
    requires c.IsAvailable(n)
  {
    c.(vout := Trim(c.vout[n := NULL_OUT]))
  }

  /** Undo data carries the record's metadata exactly when its last output goes. */
  function SpendUndo(c: Coins, n: nat): TxInUndo
    requires c.IsAvailable(n)
  {
    if SpendOutput(c, n).vout == [] then TxInUndo(c.vout[n], c.fCoinBase, c.nHeight, c.nVersion)
    else TxInUndo(c.vout[n], false, 0, 0)
  }

  function Resize(v: seq<TxOut>, n: nat): (r: seq<TxOut>)
    ensures |r| == if |v| < n then n else |v|
  {
    if |v| < n then v + seq(n - |v|, _ => NULL_OUT) else v
  }

  /** The record an undo starts from: fresh metadata if the undo data carries a height. */
  function UndoBase(c: Coins, undo: TxInUndo): Coins {
    if undo.nHeight != 0 then Coins(undo.fCoinBase, [], undo.nHeight, undo.nVersion) else c
  }

  function RestoreOutput(c: Coins, n: nat, undo: TxInUndo): Coins {
    var b := UndoBase(c, undo);
    b.(vout := Resize(b.vout, n + 1)[n := undo.txout])
  }

  /** The three sanity tests DisconnectBlock makes before writing an output back. */
  predicate RestoreIsClean(c: Coins, n: nat, undo: TxInUndo) {
    && (undo.nHeight != 0 <==> c.IsPruned())
    && !UndoBase(c, undo).IsAvailable(n)
  }

  lemma SpendAvailability(c: Coins, n: nat, m: nat)
    requires c.IsAvailable(n)
    ensures SpendOutput(c, n).IsAvailable(m) <==> m != n && c.IsAvailable(m)
  {
    var v, t := c.vout[n := NULL_OUT], SpendOutput(c, n).vout;
    if m < |v| {
      assert v[m].IsNull() <==> m == n || c.vout[m].IsNull();
      if m < |t| { assert t[m] == v[m]; }
    }
  }

  lemma SpendKeepsClean(c: Coins, n: nat)
    requires Clean(c) && c.IsAvailable(n)
    ensures SpendOutput(c, n).vout != [] ==> Clean(SpendOutput(c, n))
    ensures SpendOutput(c, n).IsPruned() <==> SpendOutput(c, n).vout == []
  {
    var v, t := c.vout[n := NULL_OUT], SpendOutput(c, n).vout;
    if t != [] {
      assert t[|t| - 1] in t;
      forall o | o in t && o.IsNull() ensures o == NULL_OUT {
        var i :| 0 <= i < |t| && t[i] == o;
        assert o == v[i];
        if i != n { assert o in c.vout; }
      }
    }
  }

  /** Writing back the undo record of a spend gives the record from before the spend. What
      is left in the table after the last output went may be anything pruned. */
  lemma RestoreInvertsSpend(c: Coins, n: nat, left: Coins)
    requires Clean(c) && c.IsAvailable(n)
    requires left == SpendOutput(c, n) || (SpendOutput(c, n).vout == [] && left.IsPruned())
    ensures RestoreOutput(left, n, SpendUndo(c, n)) == c
    ensures RestoreIsClean(left, n, SpendUndo(c, n))
  {
    SpendKeepsClean(c, n);
    var v := c.vout[n := NULL_OUT];
    var t := SpendOutput(c, n).vout;
    var undo := SpendUndo(c, n);
    if t != [] {
      assert t[|t| - 1] in t && !t[|t| - 1].IsNull();
    }
    var b := UndoBase(left, undo);
    assert b.vout == t;
    if n < |c.vout| - 1 {
      assert v[|v| - 1] == c.vout[|c.vout| - 1];
      assert |t| == |v|;
    } else {
      assert |t| <= n;
      forall i | |t| <= i < n ensures c.vout[i] == NULL_OUT {
        assert v[i].IsNull() && c.vout[i] in c.vout;
      }
    }
    assert Resize(b.vout, n + 1)[n := c.vout[n]] == c.vout;
  }

  /** The mutable record. Its value is what the coin map stores. */
  class CCoins {
    var fCoinBase: bool
    var vout: seq<TxOut>
    var nHeight: int
    var nVersion: int

    function Value(): Coins
      reads this
    {
      Coins(fCoinBase, vout, nHeight, nVersion)
    }

    constructor (c: Coins)
      ensures Value() == c
    {
      fCoinBase, vout, nHeight, nVersion := c.fCoinBase, c.vout, c.nHeight, c.nVersion;
    }

    method Cleanup()
      modifies this`vout
      ensures vout == Trim(old(vout))
    {
      while |vout| > 0 && vout[|vout| - 1].IsNull()
        invariant Trim(vout) == Trim(old(vout))
        decreases |vout|
      {
        vout := vout[..|vout| - 1];
      }
    }

    method Spend(n: nat) returns (ok: bool, undo: TxInUndo)
      modifies this
      ensures ok <==> old(Value()).IsAvailable(n)
      ensures ok ==> Value() == SpendOutput(old(Value()), n) && undo == SpendUndo(old(Value()), n)
      ensures !ok ==> Value() == old(Value())
    {
      undo := TxInUndo(NULL_OUT, false, 0, 0);
      if n >= |vout| {
        return false, undo;
      }
      if vout[n].IsNull() {
        return false, undo;
      }
      undo := TxInUndo(vout[n], false, 0, 0);
      vout := vout[n := NULL_OUT];
      Cleanup();
      if |vout| == 0 {
        undo := undo.(nHeight := nHeight, fCoinBase := fCoinBase, nVersion := nVersion);
      }
      ok := true;
    }
  }
}
