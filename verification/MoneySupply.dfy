/** Values moved by a block and the money supply (main.cpp, CheckInputs, ConnectBlock,
    GetMinFee, GetBlockValue; prime.cpp, TargetGetMint). */
module MoneySupply {
  import opened CoinRecords
  import opened UtxoSet

  const TARGET_MIN_LENGTH := 6
  const FRACTIONAL_ONE := 0x100_0000 // 1 << nFractionalBits
  const MINT_LIMIT := 999 * COIN

  function Quotient(a: nat, n: nat): (q: nat)
    requires n > 0
    ensures n * q <= a < n * q + n
  {
    a / n
  }

  /** TargetGetMint, which gives 0 together with an error below the minimum length. */
  function TargetGetMint(nBits: nat): nat {
    if nBits / FRACTIONAL_ONE < TARGET_MIN_LENGTH then 0
    else
      var once := Quotient(MINT_LIMIT * FRACTIONAL_ONE, nBits);
      var mint := Quotient(once * FRACTIONAL_ONE, nBits) / CENT * CENT;
      if mint > MINT_LIMIT then 0 else mint
  }

  /** The mint is 999 coins over the square of the target's length and fraction, in whole cents:
      n is the target in units of 2^-24. The limit is never met. */
  lemma MintIsInverseSquare(nBits: nat)
    ensures nBits < 6 * 0x100_0000 ==> TargetGetMint(nBits) == 0
    ensures TargetGetMint(nBits) % CENT == 0
    ensures nBits >= 6 * 0x100_0000 ==>
              var mint := TargetGetMint(nBits);
              mint * (nBits * nBits) <= 999 * COIN * 0x1_0000_0000_0000 < (mint + CENT + 2) * (nBits * nBits)
  {
    if nBits >= 6 * 0x100_0000 {
      var twice := MintBeforeRounding(nBits);
      hide TargetGetMint;
      WholeCents(twice);
      ScaleBounds(TargetGetMint(nBits), twice, CENT, nBits * nBits);
    }
  }

  lemma MintBeforeRounding(nBits: nat) returns (twice: nat)
    requires nBits >= 6 * FRACTIONAL_ONE
    ensures TargetGetMint(nBits) == twice / CENT * CENT
    ensures twice * (nBits * nBits) <= MINT_LIMIT * (FRACTIONAL_ONE * FRACTIONAL_ONE) < (twice + 2) * (nBits * nBits)
  {
    hide Quotient;
    var once := Quotient(MINT_LIMIT * FRACTIONAL_ONE, nBits);
    twice := Quotient(once * FRACTIONAL_ONE, nBits);
    assert TargetGetMint(nBits) == if twice / CENT * CENT > MINT_LIMIT then 0 else twice / CENT * CENT;
    hide TargetGetMint;
    DivideTwice(nBits, FRACTIONAL_ONE, MINT_LIMIT, once, twice);
    WholeCents(twice);
  }

  lemma DivideTwice(n: nat, one: nat, limit: nat, once: nat, twice: nat)
    requires 0 < one <= n && once == Quotient(limit * one, n) && twice == Quotient(once * one, n)
    ensures twice <= limit && twice * (n * n) <= limit * (one * one) < (twice + 2) * (n * n)
  {
    hide Quotient;
    TwoDivisions(n, one, limit, once, limit * one - n * once, twice, once * one - n * twice);
    SquareBound(n, one, limit, twice);
  }

  lemma WholeCents(n: nat)
    ensures n / CENT * CENT <= n < n / CENT * CENT + CENT && n / CENT * CENT % CENT == 0
  {
  }

  lemma ScaleBounds(a: nat, b: nat, c: nat, q: nat)
    requires a <= b < a + c
    ensures a * q <= b * q && (b + 2) * q <= (a + c + 2) * q
  {
  }

  lemma TwoDivisions(n: nat, one: nat, limit: nat, once: nat, r1: nat, twice: nat, r2: nat)
    requires 0 < one <= n && r1 < n && r2 < n && limit * one == n * once + r1 && once * one == n * twice + r2
    ensures twice * (n * n) <= limit * (one * one) < (twice + 2) * (n * n)
  {
    Expand(n, one, once, r1, twice, r2);
    assert limit * (one * one) == (limit * one) * one;
    Below(n, r2, n);
    Below(n, r1, one);
    assert (twice + 2) * (n * n) == twice * (n * n) + n * n + n * n;
  }

  lemma Expand(n: nat, one: nat, once: nat, r1: nat, twice: nat, r2: nat)
    requires once * one == n * twice + r2
    ensures (n * once + r1) * one == twice * (n * n) + n * r2 + r1 * one
  {
    assert (n * once + r1) * one == n * (once * one) + r1 * one;
    assert n * (n * twice + r2) == twice * (n * n) + n * r2;
  }

  lemma Below(n: nat, r: nat, m: nat)
    requires r < n && 0 < m <= n
    ensures 0 <= r * m && r * m == m * r < n * n
  {
    assert m * r <= n * r;
    assert n * r < n * n;
  }

  lemma SquareBound(n: nat, one: nat, limit: nat, twice: nat)
    requires 0 < one <= n && twice * (n * n) <= limit * (one * one)
    ensures twice <= limit
  {
    assert one * one <= n * n;
    assert limit * (one * one) <= limit * (n * n);
  }

  function GetBlockValue(nBits: nat, nFees: int): int {
    TargetGetMint(nBits) + nFees
  }

  /** GetMinFee as blocks use it: no free area, block size 1. */
  function GetMinFee(tx: Tx): int {
    var nMinFee := (1 + tx.nBytes / 1000) * MIN_TX_FEE;
    if MoneyRange(nMinFee) then nMinFee else MAX_MONEY
  }

  lemma MinFeeFloor(tx: Tx)
    ensures MIN_TX_FEE <= GetMinFee(tx) <= MAX_MONEY
  {
  }

  /** A cent for each begun thousand bytes, and for one more when the size is round. */
  lemma MinFeeBySize(tx: Tx)
    ensures tx.nBytes < 1000 ==> GetMinFee(tx) == 1000000
    ensures GetMinFee(tx) < MAX_MONEY ==> GetMinFee(tx) % 1000000 == 0 && tx.nBytes * 1000000 < 1000 * GetMinFee(tx) <= (tx.nBytes + 1000) * 1000000
    ensures GetMinFee(tx) == MAX_MONEY ==> 1000 * MAX_MONEY <= (tx.nBytes + 1000) * 1000000
  {
  }

  function OutputValue(u: Utxo, p: OutPoint): int {
    if Available(u, p) then u[p.hash].vout[p.n].nValue else 0
  }

  function InputValue(u: Utxo, vin: seq<OutPoint>, k: nat): int
    requires k <= |vin|
  {
    if k == 0 then 0 else InputValue(u, vin, k - 1) + OutputValue(u, vin[k - 1])
  }

  /** GetValueIn: a coinbase takes nothing in. */
  function ValueIn(u: Utxo, tx: Tx): int {
    if tx.IsCoinBase() then 0 else InputValue(u, tx.vin, |tx.vin|)
  }

  /** The value tests on the first k inputs, in the order CheckInputs makes them. */
  predicate InputsInRange(u: Utxo, vin: seq<OutPoint>, nSpendHeight: int, k: nat)
    requires k <= |vin|
  {
    k == 0
    || (&& InputsInRange(u, vin, nSpendHeight, k - 1)
        && Available(u, vin[k - 1])
        && (u[vin[k - 1].hash].fCoinBase ==> nSpendHeight - u[vin[k - 1].hash].nHeight >= COINBASE_MATURITY)
        && MoneyRange(OutputValue(u, vin[k - 1]))
        && MoneyRange(InputValue(u, vin, k)))
  }

  /** What CheckInputs demands of a transaction besides its scripts. */
  predicate InputsPass(u: Utxo, tx: Tx, nSpendHeight: int) {
    tx.IsCoinBase()
    || (&& HaveInputs(u, tx.vin)
        && InputsInRange(u, tx.vin, nSpendHeight, |tx.vin|)
        && ValueOf(tx.vout) + GetMinFee(tx) <= ValueIn(u, tx)
        && MoneyRange(ValueIn(u, tx) - ValueOf(tx.vout)))
  }

  function BlockValueIn(u: Utxo, txs: seq<Tx>, nHeight: int, k: nat): int
    requires k <= |txs|
  {
    if k == 0 then 0
    else BlockValueIn(u, txs, nHeight, k - 1) + ValueIn(ApplyTxs(u, txs, nHeight, k - 1), txs[k - 1])
  }

  function BlockValueOut(txs: seq<Tx>, k: nat): int
    requires k <= |txs|
  {
    if k == 0 then 0 else BlockValueOut(txs, k - 1) + ValueOf(txs[k - 1].vout)
  }

  /** The fees of all but the coinbase. */
  function BlockFees(u: Utxo, txs: seq<Tx>, nHeight: int, k: nat): int
    requires k <= |txs|
  {
    if k <= 1 then 0
    else BlockFees(u, txs, nHeight, k - 1)
         + ValueIn(ApplyTxs(u, txs, nHeight, k - 1), txs[k - 1]) - ValueOf(txs[k - 1].vout)
  }

  /** What a block may pay its miner. */
  function CoinbaseLimit(u: Utxo, txs: seq<Tx>, nHeight: int, nBits: nat): int
    requires txs != []
  {
    GetBlockValue(nBits, BlockFees(u, txs, nHeight, |txs|)) - GetMinFee(txs[0]) + MIN_TX_FEE
  }

  lemma {:induction false} FeesAreInMinusOut(u: Utxo, txs: seq<Tx>, nHeight: int, k: nat)
    requires BlockOk(txs) && 1 <= k <= |txs|
    ensures BlockFees(u, txs, nHeight, k)
            == BlockValueIn(u, txs, nHeight, k) - BlockValueOut(txs, k) + ValueOf(txs[0].vout)
  {
    if k > 1 {
      FeesAreInMinusOut(u, txs, nHeight, k - 1);
    } else {
      assert BlockValueIn(u, txs, nHeight, 1) == ValueIn(u, txs[0]);
      assert BlockValueOut(txs, 1) == ValueOf(txs[0].vout);
    }
  }

  /** A block whose coinbase keeps its limit adds at most the mint of its target. */
  lemma GrowthIsAtMostMint(u: Utxo, txs: seq<Tx>, nHeight: int, nBits: nat)
    requires BlockOk(txs)
    requires ValueOf(txs[0].vout) <= CoinbaseLimit(u, txs, nHeight, nBits)
    ensures BlockValueOut(txs, |txs|) - BlockValueIn(u, txs, nHeight, |txs|) <= TargetGetMint(nBits)
  {
    FeesAreInMinusOut(u, txs, nHeight, |txs|);
    MinFeeFloor(txs[0]);
  }

  // ---------- conservation ----------

  ghost function Total(u: Utxo): int
    decreases |u|
  {
    if u == map[] then 0
    else
      var t :| t in u;
      ValueOf(u[t].vout) + Total(u - {t})
  }

  lemma {:induction false} TotalPick(u: Utxo, t: Txid)
    requires t in u
    ensures Total(u) == ValueOf(u[t].vout) + Total(u - {t})
    decreases |u|
  {
    var s :| s in u && Total(u) == ValueOf(u[s].vout) + Total(u - {s});
    if s != t {
      TotalPick(u - {s}, t);
      TotalPick(u - {t}, s);
      assert u - {s} - {t} == u - {t} - {s};
    }
  }

  lemma TotalSet(u: Utxo, t: Txid, c: Coins)
    ensures Total(u[t := c]) == Total(u - {t}) + ValueOf(c.vout)
  {
    TotalPick(u[t := c], t);
    assert u[t := c] - {t} == u - {t};
  }

  lemma {:induction false} TrimKeepsValue(v: seq<TxOut>)
    ensures ValueOf(Trim(v)) == ValueOf(v)
  {
    if v != [] && v[|v| - 1].IsNull() { TrimKeepsValue(v[..|v| - 1]); }
  }

  lemma {:induction false} ClearingTakesValue(v: seq<TxOut>, n: nat)
    requires n < |v| && !v[n].IsNull()
    ensures ValueOf(v[n := NULL_OUT]) == ValueOf(v) - v[n].nValue
  {
    var w := v[n := NULL_OUT];
    if n == |v| - 1 {
      assert w[..|w| - 1] == v[..|v| - 1];
    } else {
      ClearingTakesValue(v[..|v| - 1], n);
      assert w[..|w| - 1] == v[..|v| - 1][n := NULL_OUT];
    }
  }

  lemma SpendTakesValue(u: Utxo, p: OutPoint)
    requires Available(u, p)
    ensures Total(SpendIn(u, p)) == Total(u) - OutputValue(u, p)
  {
    var c := u[p.hash];
    var c' := SpendOutput(c, p.n);
    ClearingTakesValue(c.vout, p.n);
    TrimKeepsValue(c.vout[p.n := NULL_OUT]);
    TotalPick(u, p.hash);
    if c'.IsPruned() {
      PrunedIsWorthless(c'.vout);
    } else {
      TotalSet(u, p.hash, c');
    }
  }

  lemma {:induction false} PrunedIsWorthless(v: seq<TxOut>)
    requires forall o | o in v :: o.IsNull()
    ensures ValueOf(v) == 0
  {
    if v != [] { PrunedIsWorthless(v[..|v| - 1]); }
  }

  /** Spending other outputs does not change what an output is worth. */
  lemma {:induction false} SpendingKeepsValue(u: Utxo, vin: seq<OutPoint>, k: nat, p: OutPoint)
    requires UtxoOk(u) && k <= |vin| && Available(u, p) && p !in vin[..k]
    ensures Available(SpendAll(u, vin, k), p)
    ensures OutputValue(SpendAll(u, vin, k), p) == OutputValue(u, p)
  {
    SpendAllAvailability(u, vin, k, p);
    if k > 0 {
      assert vin[..k] == vin[..k - 1] + [vin[k - 1]];
      SpendingKeepsValue(u, vin, k - 1, p);
      SpendAllAvailability(u, vin, k - 1, p);
      SpendOneKeepsValue(SpendAll(u, vin, k - 1), vin[k - 1], p);
    }
  }

  lemma SpendOneKeepsValue(u: Utxo, q: OutPoint, p: OutPoint)
    requires UtxoOk(u) && Available(u, p) && p != q
    ensures Available(SpendIn(u, q), p) && OutputValue(SpendIn(u, q), p) == OutputValue(u, p)
  {
    SpendInAvailability(u, q, p);
    if Available(u, q) && p.hash == q.hash {
      var v := u[q.hash].vout[q.n := NULL_OUT];
      assert Trim(v)[p.n] == v[p.n];
    }
  }

  lemma {:induction false} SpendAllTakesValue(u: Utxo, vin: seq<OutPoint>, k: nat)
    requires UtxoOk(u) && HaveInputs(u, vin) && Distinct(vin) && k <= |vin|
    ensures Total(SpendAll(u, vin, k)) == Total(u) - InputValue(u, vin, k)
  {
    if k > 0 {
      SpendAllTakesValue(u, vin, k - 1);
      SpendingKeepsValue(u, vin, k - 1, vin[k - 1]);
      SpendTakesValue(SpendAll(u, vin, k - 1), vin[k - 1]);
    }
  }

  /** What is destroyed when a transaction id replaces a record that is not fully spent. */
  function Lost(u: Utxo, t: Txid): int {
    if t in u then ValueOf(u[t].vout) else 0
  }

  function BlockLost(u: Utxo, txs: seq<Tx>, nHeight: int, k: nat): int
    requires k <= |txs|
  {
    if k == 0 then 0
    else BlockLost(u, txs, nHeight, k - 1) + Lost(SpendInputs(ApplyTxs(u, txs, nHeight, k - 1), txs[k - 1]), txs[k - 1].hash)
  }

  lemma {:induction false} NothingLost(u: Utxo, txs: seq<Tx>, nHeight: int, k: nat)
    requires k <= |txs| && NoOverwrites(u, txs, nHeight, k)
    ensures BlockLost(u, txs, nHeight, k) == 0
  {
    hide SpendInputs, ApplyTxs;
    if k > 0 { NothingLost(u, txs, nHeight, k - 1); }
  }

  lemma ApplyTxConserves(u: Utxo, tx: Tx, nHeight: int)
    requires UtxoOk(u) && TxOk(tx) && (tx.IsCoinBase() || HaveInputs(u, tx.vin))
    ensures Total(ApplyTx(u, tx, nHeight)) == Total(u) - ValueIn(u, tx) + ValueOf(tx.vout) - Lost(SpendInputs(u, tx), tx.hash)
  {
    if !tx.IsCoinBase() { SpendAllTakesValue(u, tx.vin, |tx.vin|); }
    var spent := SpendInputs(u, tx);
    TotalSet(spent, tx.hash, FromTx(tx, nHeight));
    if tx.hash in spent { TotalPick(spent, tx.hash); } else { assert spent - {tx.hash} == spent; }
  }

  /** The total of the unspent set moves by exactly what the block pays out less what it
      takes in, and less the records that it replaces. */
  lemma {:induction false} BlockConserves(u: Utxo, txs: seq<Tx>, nHeight: int, k: nat)
    requires UtxoOk(u) && BlockOk(txs) && nHeight >= 1 && k <= |txs|
    requires InputsReady(u, txs, nHeight, k)
    ensures Total(ApplyTxs(u, txs, nHeight, k))
            == Total(u) + BlockValueOut(txs, k) - BlockValueIn(u, txs, nHeight, k) - BlockLost(u, txs, nHeight, k)
  {
    hide TxOk, UtxoOk, Lost, SpendInputs, ApplyTx, Total, HaveInputs, ValueIn, ValueOf;
    if k > 0 {
      BlockConserves(u, txs, nHeight, k - 1);
      ApplyTxsKeepsOk(u, txs, nHeight, k - 1);
      TxAt(u, txs, nHeight, k);
      ApplyTxConserves(ApplyTxs(u, txs, nHeight, k - 1), txs[k - 1], nHeight);
    }
  }

  lemma TxAt(u: Utxo, txs: seq<Tx>, nHeight: int, k: nat)
    requires BlockOk(txs) && 1 <= k <= |txs| && InputsReady(u, txs, nHeight, k)
    ensures TxOk(txs[k - 1]) && (txs[k - 1].IsCoinBase() || HaveInputs(ApplyTxs(u, txs, nHeight, k - 1), txs[k - 1].vin))
  {
    hide TxOk, HaveInputs, ApplyTxs;
    BlockOkAt(txs, k - 1);
  }
}
