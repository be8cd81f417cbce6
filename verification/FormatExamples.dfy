/** The compact formats as the comments of the source describe them, by formula and by example
    (serialize.h, VarInts; main.cpp, CTxOutCompressor; main.h, CCoins). */
module FormatExamples {
  import opened Arithmetic
  import opened CoinRecords
  import opened VarInts
  import opened AmountCodec
  import opened ScriptCompressor
  import opened CoinsCodec

  // ---------- variable-length integers ----------

  function Pow128(i: nat): nat {
    if i == 0 then 1 else 128 * Pow128(i - 1)
  }

  /** The digits from the i-th last on, each plus one, at their places. */
  function DigitSum(b: seq<byte>, i: nat): nat
    decreases |b| - i
  {
    if i >= |b| then 0 else Pow128(i) * (b[|b| - 1 - i] % 128 + 1) + DigitSum(b, i + 1)
  }

  lemma PullOut(p: nat, d: nat, s: nat)
    ensures 128 * (p * d + s) == 128 * p * d + 128 * s
  {
  }

  lemma {:induction false} DigitSumFront(b: seq<byte>, i: nat)
    requires i < |b|
    ensures DigitSum(b, i + 1) == 128 * DigitSum(b[..|b| - 1], i)
    decreases |b| - i
  {
    if i + 1 < |b| {
      DigitSumFront(b, i + 1);
      var front := b[..|b| - 1];
      PullOut(Pow128(i), front[|front| - 1 - i] % 128 + 1, DigitSum(front, i + 1));
    }
  }

  lemma {:induction false} LeadingMeans(p: seq<byte>)
    requires forall i | 0 <= i < |p| :: p[i] >= 128
    ensures LeadingValue(p) == DigitSum(p, 0)
  {
    if p != [] {
      LeadingMeans(p[..|p| - 1]);
      DigitSumFront(p, 0);
    }
  }

  /** The number that an encoding stands for. */
  lemma VarIntMeans(b: seq<byte>)
    requires IsEncoding(b)
    ensures Value(b) == b[|b| - 1] + DigitSum(b, 1)
  {
    LeadingMeans(b[..|b| - 1]);
    DigitSumFront(b, 0);
  }

  lemma LeadingStep(a: nat, d: nat)
    requires d < 128
    ensures Leading(128 * a + d + 1) == Leading(a) + [128 + d]
  {
    LastDigit(a, d);
  }

  /** The last digit, and the others before it. */
  lemma VarIntStep(a: nat, d: nat)
    requires d < 128
    ensures VarInt(128 * a + d) == Leading(a) + [d]
  {
    hide Leading;
    LastDigit(a, d);
  }

  lemma OneDigit(e: nat)
    requires e < 128
    ensures VarInt(e) == [e]
  {
  }

  lemma LeadingOne(d: nat)
    requires d < 128
    ensures Leading(d + 1) == [128 + d]
  {
    LeadingStep(0, d);
  }

  lemma TwoDigits(d: nat, e: nat)
    requires d < 128 && e < 128
    ensures VarInt(128 * (d + 1) + e) == [128 + d, e]
  {
    LeadingOne(d);
    hide VarInt, Leading;
    VarIntStep(d + 1, e);
  }

  lemma ThreeDigits(c: nat, d: nat, e: nat)
    requires c < 128 && d < 128 && e < 128
    ensures VarInt(128 * (128 * (c + 1) + d + 1) + e) == [128 + c, 128 + d, e]
  {
    hide VarInt, Leading;
    LeadingOne(c);
    LeadingStep(c + 1, d);
    VarIntStep(128 * (c + 1) + d + 1, e);
  }

  lemma FiveDigits(a: nat, b: nat, c: nat, d: nat, e: nat)
    requires a < 128 && b < 128 && c < 128 && d < 128 && e < 128
    ensures
      var n := 128 * (a + 1) + b + 1;
      VarInt(128 * (128 * (128 * n + c + 1) + d + 1) + e) == [128 + a, 128 + b, 128 + c, 128 + d, e]
  {
    hide VarInt, Leading;
    var n := 128 * (a + 1) + b + 1;
    LeadingOne(a);
    LeadingStep(a + 1, b);
    LeadingStep(n, c);
    LeadingStep(128 * n + c + 1, d);
    VarIntStep(128 * (128 * n + c + 1) + d + 1, e);
  }

  /** The examples of the source, with two of its typing errors mended: it has another digit
      for 16511 and for 65535. */
  lemma VarIntExamples()
    ensures VarInt(0) == [0x00] && VarInt(1) == [0x01] && VarInt(127) == [0x7F]
    ensures VarInt(128) == [0x80, 0x00] && VarInt(255) == [0x80, 0x7F] && VarInt(256) == [0x81, 0x00]
    ensures VarInt(16383) == [0xFE, 0x7F] && VarInt(16384) == [0xFF, 0x00] && VarInt(16511) == [0xFF, 0x7F]
    ensures VarInt(65535) == [0x82, 0xFE, 0x7F]
    ensures VarInt(0x1_0000_0000) == [0x8E, 0xFE, 0xFE, 0xFF, 0x00]
  {
    hide VarInt;
    OneDigit(0);
    OneDigit(1);
    OneDigit(127);
    TwoDigits(0, 0);
    TwoDigits(0, 0x7F);
    TwoDigits(1, 0);
    TwoDigits(0x7E, 0x7F);
    TwoDigits(0x7F, 0);
    TwoDigits(0x7F, 0x7F);
    ThreeDigits(2, 0x7E, 0x7F);
    FiveDigits(0x0E, 0x7E, 0x7E, 0x7F, 0);
  }

  // ---------- amounts ----------

  /** An amount whose last digit before its zeros is d. */
  lemma AmountFormula(n: nat, d: nat, e: nat)
    requires 1 <= d <= 9 && e < 9
    ensures Compressed((10 * n + d) * Pow10(e)) == 1 + 10 * (9 * n + d - 1) + e
  {
    var x := 1 + 10 * (9 * n + d - 1) + e;
    ResidueIsUnique(10, x - 1, 9 * n + d - 1, e);
    ResidueIsUnique(9, 9 * n + d - 1, n, d - 1);
    assert Decompressed(x) == (10 * n + d) * Pow10(e);
    hide Compressed, Decompressed, Pow10;
    CompressedIsBijection(0, x);
  }

  /** An amount with nine zeros or more. */
  lemma WholeAmountFormula(n: nat)
    requires n > 0
    ensures Compressed(n * 1000000000) == 1 + 10 * (n - 1) + 9
  {
    var x := 1 + 10 * (n - 1) + 9;
    ResidueIsUnique(10, x - 1, n - 1, 9);
    assert Pow10(9) == 1000000000 by { Billion(); }
    assert Decompressed(x) == n * Pow10(9);
    hide Compressed, Decompressed, Pow10;
    CompressedIsBijection(0, x);
  }

  lemma Billion()
    ensures Pow10(9) == 1000000000
  {
    assert Pow10(3) == 1000;
    Pow10Sum(3, 3);
    Pow10Sum(3, 6);
  }

  // ---------- scripts ----------

  /** The special forms of scripts that pay to the hash of a script, to a key, or to a key
      without its second coordinate. */
  lemma SpecialForms(points: Points, h: seq<byte>, x: seq<byte>, y: seq<byte>)
    requires |h| == 20 && |x| == 32 && |y| == 32
    ensures Compress(points, [0xa9, 20] + h + [0x87]) == Some([1] + h)
    ensures Compress(points, [33, 2] + x + [0xac]) == Some([2] + x)
    ensures Compress(points, [33, 3] + x + [0xac]) == Some([3] + x)
    ensures ValidKey(points, [4] + x + y) ==>
              Compress(points, [65] + ([4] + x + y) + [0xac]) == Some([if y[31] % 2 == 0 then 4 else 5] + x)
  {
    var key := [4] + x + y;
    assert ([0xa9, 20] + h + [0x87])[2..22] == h;
    assert ([33, 2] + x + [0xac])[2..34] == x && ([33, 3] + x + [0xac])[2..34] == x;
    assert ([65] + key + [0xac])[2..34] == x && ([65] + key + [0xac])[1..66] == key;
  }

  /** All others are written as they are, after their length and six. */
  lemma PlainForm(points: Points, script: seq<byte>)
    requires Compress(points, script).None?
    ensures ScriptBytes(points, script) == VarInt(|script| + 6) + script
  {
  }

  // ---------- records ----------

  /** A payment to the hash of a key. */
  function PayTo(nValue: int, h: seq<byte>): TxOut {
    TxOut(nValue, [0x76, 0xa9, 20] + h + [0x88, 0xac])
  }

  lemma PaymentBytes(points: Points, nValue: nat, h: seq<byte>)
    requires |h| == 20 && nValue < UINT64 / 16
    ensures Storable(PayTo(nValue, h))
    ensures OutBytes(points, PayTo(nValue, h)) == VarInt(Compressed(nValue)) + [0x00] + h
  {
    var script := PayTo(nValue, h).scriptPubKey;
    assert script[3..23] == h;
    hide VarInt, Compressed;
  }

  /** The first example: output 1 of a transaction of version 1 in block 203998. */
  lemma RecordExample(points: Points, h: seq<byte>)
    requires |h| == 20
    ensures
      var c := Coins(false, [NULL_OUT, PayTo(60000000000, h)], 203998, 1);
      && Serializable(c)
      && CoinsBytes(points, c) == [0x01, 0x04, 0x83, 0x58, 0x00] + h + [0x8b, 0xb8, 0x5e]
  {
    hide VarInt, Compressed, OutBytes, PayTo, OutsBytes, Mask, Code, Wiped, AllStorable, Storable;
    var o := PayTo(60000000000, h);
    PaymentBytes(points, 60000000000, h);
    WholeAmountFormula(60);
    TwoDigits(3, 0x58);
    ThreeDigits(0x0b, 0x38, 0x5e);
    OneDigit(1);
    OneDigit(4);
    OneIsLeft(points, [NULL_OUT], o);
    assert [NULL_OUT] + [o] == [NULL_OUT, o];
    CodeOfTwo(o);
  }

  lemma CodeOfTwo(o: TxOut)
    requires Storable(o)
    ensures
      var c := Coins(false, [NULL_OUT, o], 203998, 1);
      Mask(c.vout) == [] && Code(c) == 4 && Wiped(c.vout) && !c.IsPruned()
  {
    var v := [NULL_OUT, o];
    assert v[1] == o && o in v;
    assert Mask(v) == [];
  }

  /** Of spent outputs and one that is left only that one is written. */
  lemma {:induction false} OneIsLeft(points: Points, spent: seq<TxOut>, o: TxOut)
    requires Storable(o) && forall i | 0 <= i < |spent| :: spent[i].IsNull()
    ensures AllStorable(spent + [o]) && OutsBytes(points, spent + [o]) == OutBytes(points, o)
  {
    hide OutBytes;
    NothingIsLeft(points, spent);
    assert (spent + [o])[..|spent|] == spent;
    assert [] + OutBytes(points, o) == OutBytes(points, o);
  }

  lemma {:induction false} NothingIsLeft(points: Points, spent: seq<TxOut>)
    requires forall i | 0 <= i < |spent| :: spent[i].IsNull()
    ensures AllStorable(spent) && OutsBytes(points, spent) == []
  {
    hide OutBytes;
    if spent != [] { NothingIsLeft(points, spent[..|spent| - 1]); }
  }

  lemma {:induction false} LaterOuts(points: Points, v: seq<TxOut>, spent: seq<TxOut>, o: TxOut)
    requires AllStorable(v) && Storable(o) && forall i | 0 <= i < |spent| :: spent[i].IsNull()
    ensures AllStorable(v + spent + [o]) && OutsBytes(points, v + spent + [o]) == OutsBytes(points, v) + OutBytes(points, o)
  {
    hide OutBytes;
    SpentOuts(points, v, spent);
    assert (v + spent + [o])[..|v + spent|] == v + spent;
  }

  lemma {:induction false} SpentOuts(points: Points, v: seq<TxOut>, spent: seq<TxOut>)
    requires AllStorable(v) && forall i | 0 <= i < |spent| :: spent[i].IsNull()
    ensures AllStorable(v + spent) && OutsBytes(points, v + spent) == OutsBytes(points, v)
  {
    hide OutBytes;
    if spent == [] {
      assert v + spent == v;
    } else {
      var front := spent[..|spent| - 1];
      SpentOuts(points, v, front);
      assert (v + spent)[..|v + spent| - 1] == v + front;
      assert OutsBytes(points, v) + [] == OutsBytes(points, v);
    }
  }

  // ---------- the second example ----------

  /** Outputs 4 and 16 of seventeen. */
  function TwoOfSeventeen(a: TxOut, b: TxOut): seq<TxOut> {
    Nulls(4) + [a] + Nulls(11) + [b]
  }

  lemma ByteFront(x: bool, f: seq<bool>)
    ensures ByteOf([x] + f) == (if x then 1 else 0) + 2 * ByteOf(f)
  {
    assert ([x] + f)[1..] == f;
  }

  lemma Bit2()
    ensures ByteOf([false, false, true, false, false, false, false, false]) == 0x04
  {
    ZeroByte([false, false, false, false, false]);
    var s := [true] + [false, false, false, false, false];
    ByteFront(true, [false, false, false, false, false]);
    ByteFront(false, s);
    ByteFront(false, [false] + s);
    assert [false] + ([false] + s) == [false, false, true, false, false, false, false, false];
  }

  lemma Bit6()
    ensures ByteOf([false, false, false, false, false, false, true]) == 0x40
  {
    var f := [false, false, false, false, false, false];
    ZeroByte(f);
    ByteAppend(f, true);
    assert f + [true] == [false, false, false, false, false, false, true];
    assert Pow2(6) == 0x40;
  }

  lemma TailOfSeventeen(a: TxOut, b: TxOut)
    requires !a.IsNull() && !b.IsNull()
    ensures
      var f, t := false, true;
      Tail(TwoOfSeventeen(a, b)) == [f, f, t, f, f, f, f, f] + [f, f, f, f, f, f, t]
  {
  }

  lemma MaskOfSeventeen(a: TxOut, b: TxOut)
    requires !a.IsNull() && !b.IsNull()
    ensures Mask(TwoOfSeventeen(a, b)) == [0x04, 0x40]
  {
    hide ByteOf, Tail;
    var f, t := false, true;
    var low, high := [f, f, t, f, f, f, f, f], [f, f, f, f, f, f, t];
    TailOfSeventeen(a, b);
    Bit2();
    Bit6();
    assert (low + high)[..8] == low && (low + high)[8..] == high && high[..7] == high && high[7..] == [];
    assert MaskBytes(high) == [0x40];
    assert MaskBytes(low + high) == [0x04] + [0x40];
  }

  lemma OutsOfSeventeen(points: Points, a: TxOut, b: TxOut)
    requires Storable(a) && Storable(b)
    ensures AllStorable(TwoOfSeventeen(a, b))
    ensures OutsBytes(points, TwoOfSeventeen(a, b)) == OutBytes(points, a) + OutBytes(points, b)
  {
    hide OutBytes, OutsBytes;
    OneIsLeft(points, Nulls(4), a);
    LaterOuts(points, Nulls(4) + [a], Nulls(11), b);
  }

  lemma CodeOfSeventeen(a: TxOut, b: TxOut)
    requires Storable(a) && Storable(b)
    ensures
      var c := Coins(true, TwoOfSeventeen(a, b), 120891, 1);
      Code(c) == 9 && Wiped(c.vout) && !c.IsPruned() && |c.vout| == 17
  {
    MaskOfSeventeen(a, b);
    hide Mask;
    var v := TwoOfSeventeen(a, b);
    assert v[4] == a && v[0] == NULL_OUT && v[1] == NULL_OUT;
    assert a in v;
    assert Nonzeros([0x04, 0x40]) == 2 by {
      assert [0x04, 0x40][..1] == [0x04] && [0x04][..0] == [];
      assert Nonzeros([0x04]) == 1;
    }
  }

  /** The second example: outputs 4 and 16 of a coinbase of version 1 in block 120891. */
  lemma CoinbaseExample(points: Points, h1: seq<byte>, h2: seq<byte>)
    requires |h1| == 20 && |h2| == 20
    ensures
      var c := Coins(true, TwoOfSeventeen(PayTo(234925952, h1), PayTo(110397, h2)), 120891, 1);
      && Serializable(c)
      && CoinsBytes(points, c) ==
         [0x01, 0x09, 0x04, 0x40] + ([0x86, 0xef, 0x97, 0xd5, 0x79, 0x00] + h1) + ([0xbb, 0xd1, 0x23, 0x00] + h2) + [0x86, 0xaf, 0x3b]
  {
    hide VarInt, Compressed, OutBytes, OutsBytes, Mask, PayTo, TwoOfSeventeen, Code, Wiped, AllStorable, Storable;
    var a, b := PayTo(234925952, h1), PayTo(110397, h2);
    PaymentBytes(points, 234925952, h1);
    PaymentBytes(points, 110397, h2);
    assert VarInt(Compressed(234925952)) == [0x86, 0xef, 0x97, 0xd5, 0x79] by {
      PlainAmount(23492595, 2);
      FiveDigits(0x06, 0x6f, 0x17, 0x55, 0x79);
    }
    assert VarInt(Compressed(110397)) == [0xbb, 0xd1, 0x23] by {
      PlainAmount(11039, 7);
      ThreeDigits(0x3b, 0x51, 0x23);
    }
    ThreeDigits(0x06, 0x2f, 0x3b);
    OneDigit(1);
    OneDigit(9);
    StorableIsThere(a);
    StorableIsThere(b);
    MaskOfSeventeen(a, b);
    OutsOfSeventeen(points, a, b);
    CodeOfSeventeen(a, b);
  }

  lemma StorableIsThere(o: TxOut)
    requires Storable(o)
    ensures !o.IsNull()
  {
  }

  /** An amount that does not end in a zero. */
  lemma PlainAmount(n: nat, d: nat)
    requires 1 <= d <= 9
    ensures Compressed(10 * n + d) == 1 + 10 * (9 * n + d - 1)
  {
    hide Compressed;
    assert Pow10(0) == 1;
    AmountFormula(n, d, 0);
  }
}
