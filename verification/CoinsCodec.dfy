/** The compact form of a transaction's unspent outputs (main.h, CCoins): version, a code, a bit
    mask of which outputs are unspent, those outputs, and the height. */
module CoinsCodec {
  import opened Arithmetic
  import opened CoinRecords
  import opened VarInts
  import opened AmountCodec
  import opened ScriptCompressor

  // ---------- bits of a byte, least significant first ----------

  function ByteOf(f: seq<bool>): (b: nat)
    ensures b < Pow2(|f|)
  {
    if f == [] then 0 else (if f[0] then 1 else 0) + 2 * ByteOf(f[1..])
  }

  function BitsOf(b: nat, n: nat): (f: seq<bool>)
    ensures |f| == n
  {
    if n == 0 then [] else [b % 2 == 1] + BitsOf(b / 2, n - 1)
  }

  function Falses(n: nat): (f: seq<bool>)
    ensures |f| == n && forall i | 0 <= i < n :: !f[i]
  {
    if n == 0 then [] else [false] + Falses(n - 1)
  }

  lemma {:induction false} BitsOfByte(f: seq<bool>, n: nat)
    requires |f| <= n
    ensures BitsOf(ByteOf(f), n) == f + Falses(n - |f|)
  {
    if f != [] {
      BitsOfByte(f[1..], n - 1);
      assert f == [f[0]] + f[1..];
    } else if n > 0 {
      BitsOfByte([], n - 1);
    }
  }

  lemma {:induction false} ByteAppend(f: seq<bool>, x: bool)
    ensures ByteOf(f + [x]) == ByteOf(f) + (if x then Pow2(|f|) else 0)
  {
    if f == [] {
      assert [x][1..] == [];
    } else {
      assert (f + [x])[1..] == f[1..] + [x];
      ByteAppend(f[1..], x);
    }
  }

  /** (b & (1 << i)) != 0. */
  lemma {:induction false} BitAt(b: nat, n: nat, i: nat)
    requires i < n
    ensures BitsOf(b, n)[i] <==> b / Pow2(i) % 2 == 1
  {
    if i > 0 {
      BitAt(b / 2, n - 1, i - 1);
      HalfFirst(b, Pow2(i - 1));
    }
  }

  lemma HalfFirst(b: nat, p: nat)
    requires p > 0
    ensures b / 2 / p == b / (2 * p)
  {
    var q, r := b / (2 * p), b % (2 * p);
    assert b == (2 * p) * q + r;
    assert b / 2 == p * q + r / 2 by { DoubleProduct(p, q); }
    ResidueIsUnique(p, b / 2, q, r / 2);
  }

  lemma ZeroByte(f: seq<bool>)
    ensures ByteOf(f) == 0 <==> forall i | 0 <= i < |f| :: !f[i]
  {
    if f != [] {
      ZeroByte(f[1..]);
      assert f == [f[0]] + f[1..];
    }
  }

  // ---------- the mask ----------

  /** Bit i, false past the end. */
  predicate Bit(f: seq<bool>, i: nat) {
    i < |f| && f[i]
  }

  function MaskBytes(f: seq<bool>): (m: seq<byte>)
    decreases |f|
  {
    if f == [] then [] else
      var k := if |f| < 8 then |f| else 8;
      EightBits(f[..k]);
      [ByteOf(f[..k])] + MaskBytes(f[k..])
  }

  lemma EightBits(f: seq<bool>)
    requires |f| <= 8
    ensures ByteOf(f) < 256
  {
    Pow2Mono(|f|, 8);
    assert Pow2(8) == 256;
  }

  function Unmask(m: seq<byte>): (f: seq<bool>)
    ensures |f| == 8 * |m|
  {
    if m == [] then [] else BitsOf(m[0], 8) + Unmask(m[1..])
  }

  /** Without the zero bytes at the end. */
  function TrimZeros(m: seq<byte>): (r: seq<byte>)
    ensures r <= m && (r != [] ==> r[|r| - 1] != 0)
  {
    if m != [] && m[|m| - 1] == 0 then TrimZeros(m[..|m| - 1]) else m
  }

  function Nonzeros(m: seq<byte>): (n: nat)
    ensures n <= |m|
  {
    if m == [] then 0 else Nonzeros(m[..|m| - 1]) + if m[|m| - 1] != 0 then 1 else 0
  }

  lemma {:induction false} TrimKeepsNonzeros(m: seq<byte>)
    ensures Nonzeros(TrimZeros(m)) == Nonzeros(m)
  {
    if m != [] && m[|m| - 1] == 0 { TrimKeepsNonzeros(m[..|m| - 1]); }
  }

  lemma {:induction false} NonzerosFront(m: seq<byte>)
    requires m != []
    ensures Nonzeros(m) == (if m[0] != 0 then 1 else 0) + Nonzeros(m[1..])
  {
    if |m| > 1 {
      NonzerosFront(m[..|m| - 1]);
      assert m[..|m| - 1][1..] == m[1..][..|m| - 2];
    } else {
      assert m[1..] == [] && m[..0] == [];
    }
  }

  lemma {:induction false} UnmaskAppend(m: seq<byte>, b: byte)
    ensures Unmask(m + [b]) == Unmask(m) + BitsOf(b, 8)
  {
    if m == [] {
      assert [b][1..] == [];
      assert Unmask([b]) == BitsOf(b, 8) + Unmask([]);
    } else {
      assert (m + [b])[1..] == m[1..] + [b];
      UnmaskAppend(m[1..], b);
    }
  }

  /** Dropping zero bytes drops no bit. */
  lemma {:induction false} TrimKeepsBits(m: seq<byte>, i: nat)
    ensures Bit(Unmask(TrimZeros(m)), i) == Bit(Unmask(m), i)
  {
    var k := |m| - 1;
    if m != [] && m[k] == 0 {
      TrimKeepsBits(m[..k], i);
      assert m == m[..k] + [m[k]];
      UnmaskAppend(m[..k], 0);
      BitsOfByte([], 8);
    }
  }

  lemma {:induction false} MaskKeepsBits(f: seq<bool>, i: nat)
    ensures Bit(Unmask(MaskBytes(f)), i) == Bit(f, i)
    decreases |f|
  {
    if f != [] {
      var k := if |f| < 8 then |f| else 8;
      EightBits(f[..k]);
      BitsOfByte(f[..k], 8);
      var b: byte := ByteOf(f[..k]);
      var rest := MaskBytes(f[k..]);
      assert MaskBytes(f) == [b] + rest;
      assert Unmask([b] + rest) == BitsOf(b, 8) + Unmask(rest) by { assert ([b] + rest)[1..] == rest; }
      if i >= 8 { MaskKeepsBits(f[k..], i - 8); }
    }
  }

  function MaskRead(s: seq<byte>, nMaskCode: nat): Parsed<seq<bool>>
    decreases |s|
  {
    if nMaskCode == 0 then Done([], s)
    else if s == [] then EndOfData
    else match MaskRead(s[1..], if s[0] != 0 then nMaskCode - 1 else nMaskCode)
      case EndOfData => EndOfData
      case Done(f, rest) => Done(BitsOf(s[0], 8) + f, rest)
  }

  /** A mask that ends in a nonzero byte is read exactly, by counting nonzero bytes. */
  lemma {:induction false} MaskRoundTrip(m: seq<byte>, t: seq<byte>)
    requires m == [] || m[|m| - 1] != 0
    ensures MaskRead(m + t, Nonzeros(m)) == Done(Unmask(m), t)
  {
    if m == [] {
      assert m + t == t;
    } else {
      NonzerosFront(m);
      assert (m + t)[1..] == m[1..] + t;
      MaskRoundTrip(m[1..], t);
    }
  }

  // ---------- outputs ----------

  function ToInt64(x: nat): int {
    if x % UINT64 >= UINT64 / 2 then x % UINT64 - UINT64 else x % UINT64
  }

  function ToInt32(x: nat): int {
    if x >= 0x8000_0000 then x - 0x1_0000_0000 else x
  }

  /** An amount and a script that the format was made for. */
  predicate Storable(o: TxOut) {
    0 <= o.nValue < UINT64 / 16 && |o.scriptPubKey| < 0x8000_0000
  }

  function OutBytes(points: Points, o: TxOut): seq<byte>
    requires Storable(o)
  {
    VarInt(Compressed(o.nValue)) + ScriptBytes(points, o.scriptPubKey)
  }

  predicate AllStorable(v: seq<TxOut>) {
    forall i | 0 <= i < |v| && !v[i].IsNull() :: Storable(v[i])
  }

  /** The unspent outputs, one after the other. */
  function OutsBytes(points: Points, v: seq<TxOut>): seq<byte>
    requires AllStorable(v)
  {
    if v == [] then [] else
      var k := |v| - 1;
      OutsBytes(points, v[..k]) + if v[k].IsNull() then [] else OutBytes(points, v[k])
  }

  function OutRead(points: Points, s: seq<byte>): Parsed<TxOut> {
    match VarRead(s, 0, 64)
    case EndOfData => EndOfData
    case Done(nVal, rest) =>
      match ReadScript(points, rest)
      case EndOfData => EndOfData
      case Done(script, rest) => Done(TxOut(ToInt64(Decompressed(nVal)), script), rest)
  }

  /** An output for each set bit, a spent one for the others. */
  function OutsRead(points: Points, s: seq<byte>, vAvail: seq<bool>): Parsed<seq<TxOut>> {
    if vAvail == [] then Done([], s) else
      var k := |vAvail| - 1;
      match OutsRead(points, s, vAvail[..k])
      case EndOfData => EndOfData
      case Done(v, rest) =>
        if !vAvail[k] then Done(v + [NULL_OUT], rest)
        else match OutRead(points, rest)
          case EndOfData => EndOfData
          case Done(o, rest) => Done(v + [o], rest)
  }

  lemma Pow2Of4()
    ensures Pow2(4) == 16
  {
  }

  lemma Widths()
    ensures Pow2(32) == 0x1_0000_0000 && Pow2(64) == UINT64
  {
    hide Pow2;
    Pow2Of4();
    Pow2Sum(4, 4);
    Pow2Sum(8, 8);
    Pow2Sum(16, 16);
    Pow2Sum(32, 32);
  }

  lemma AmountFits(n: nat)
    requires 0 <= n < UINT64 / 16
    ensures Compressed(n) < Pow2(64) && ToInt64(Decompressed(Compressed(n))) == n
  {
    hide Compressed, Decompressed, Pow2, ToInt64;
    Widths();
    CompressedIsSmall(n);
    CompressedIsBijection(n, 0);
    SmallInt64(n);
  }

  lemma SmallInt64(n: nat)
    requires n < UINT64 / 2
    ensures ToInt64(n) == n
  {
    ResidueIsUnique(UINT64, n, 0, n);
  }

  lemma ScriptFits(n: nat)
    requires n < 0x8000_0000
    ensures n + N_SPECIAL_SCRIPTS < Pow2(32)
  {
    Widths();
    hide Pow2;
  }

  lemma OutRoundTrip(points: Points, o: TxOut, t: seq<byte>)
    requires Storable(o)
    ensures OutRead(points, OutBytes(points, o) + t) == Done(o, t)
  {
    hide VarInt, VarRead, Pow2, ScriptBytes, ReadScript, Compressed, Decompressed, ToInt64;
    AmountFits(o.nValue);
    ScriptFits(|o.scriptPubKey|);
    var n, script := Compressed(o.nValue), ScriptBytes(points, o.scriptPubKey);
    ReadAfterWrite(n, script + t, 64);
    ScriptRoundTrip(points, o.scriptPubKey, t);
    assert VarInt(n) + script + t == VarInt(n) + (script + t);
  }

  /** Nothing is left of a spent output. */
  predicate Wiped(v: seq<TxOut>) {
    forall i | 0 <= i < |v| && v[i].IsNull() :: v[i] == NULL_OUT
  }

  lemma OneOutMore(points: Points, front: seq<byte>, last: seq<byte>, t: seq<byte>, f: seq<bool>, v: seq<TxOut>, k: nat)
    requires |f| == |v| == k + 1 && OutsRead(points, front + (last + t), f[..k]) == Done(v[..k], last + t)
    requires if f[k] then OutRead(points, last + t) == Done(v[k], t) else last == [] && v[k] == NULL_OUT
    ensures OutsRead(points, front + last + t, f) == Done(v, t)
  {
    hide OutRead;
    assert front + last + t == front + (last + t);
    assert v == v[..k] + [v[k]];
    assert !f[k] ==> last + t == t;
  }

  lemma {:induction false} OutsRoundTrip(points: Points, v: seq<TxOut>, f: seq<bool>, t: seq<byte>)
    requires |f| == |v| && AllStorable(v) && Wiped(v) && forall i | 0 <= i < |v| :: f[i] == !v[i].IsNull()
    ensures OutsRead(points, OutsBytes(points, v) + t, f) == Done(v, t)
  {
    if v == [] {
      assert OutsBytes(points, v) + t == t;
    } else {
      hide OutBytes, OutRead, Storable;
      var k := |v| - 1;
      var last := if v[k].IsNull() then [] else OutBytes(points, v[k]);
      OutsRoundTrip(points, v[..k], f[..k], last + t);
      if f[k] { OutRoundTrip(points, v[k], t); } else { assert last + t == t; }
      OneOutMore(points, OutsBytes(points, v[..k]), last, t, f, v, k);
      assert OutsBytes(points, v) == OutsBytes(points, v[..k]) + last;
    }
  }

  function Nulls(n: nat): (v: seq<TxOut>)
    ensures |v| == n && forall i | 0 <= i < n :: v[i] == NULL_OUT
  {
    if n == 0 then [] else Nulls(n - 1) + [NULL_OUT]
  }

  /** Cleared bits at the end read nothing. */
  lemma {:induction false} OutsReadFalses(points: Points, s: seq<byte>, f: seq<bool>, k: nat)
    requires k <= |f| && forall i | k <= i < |f| :: !f[i]
    ensures OutsRead(points, s, f) ==
            match OutsRead(points, s, f[..k])
            case EndOfData => EndOfData
            case Done(v, rest) => Done(v + Nulls(|f| - k), rest)
  {
    if k == |f| {
      assert f[..k] == f;
      assert OutsRead(points, s, f).Done? ==> OutsRead(points, s, f).value + [] == OutsRead(points, s, f).value;
    } else {
      var j := |f| - 1;
      assert f[..j][..k] == f[..k];
      OutsReadFalses(points, s, f[..j], k);
      match OutsRead(points, s, f[..k]) {
        case EndOfData =>
        case Done(v, rest) => assert v + Nulls(j - k) + [NULL_OUT] == v + Nulls(|f| - k);
      }
    }
  }

  /** Spent outputs at the end write nothing, and Cleanup drops them. */
  lemma {:induction false} NullsAtEnd(points: Points, v: seq<TxOut>, k: nat)
    requires k <= |v| && AllStorable(v) && forall i | k <= i < |v| :: v[i].IsNull()
    ensures OutsBytes(points, v) == OutsBytes(points, v[..k]) && Trim(v) == Trim(v[..k])
  {
    hide OutBytes, Storable;
    if k == |v| {
      assert v[..k] == v;
    } else {
      var j := |v| - 1;
      assert v[..j][..k] == v[..k];
      NullsAtEnd(points, v[..j], k);
    }
  }

  lemma TrimPadded(v: seq<TxOut>, n: nat)
    ensures Trim(v + Nulls(n)) == Trim(v)
  {
    if n == 0 {
      assert v + Nulls(0) == v;
    } else {
      assert (v + Nulls(n))[..|v| + n - 1] == v + Nulls(n - 1);
      TrimPadded(v, n - 1);
    }
  }

  // ---------- the record ----------

  /** Which outputs are unspent. */
  function Avail(v: seq<TxOut>): (f: seq<bool>)
    ensures |f| == |v| && forall i | 0 <= i < |v| :: f[i] == !v[i].IsNull()
  {
    if v == [] then [] else Avail(v[..|v| - 1]) + [!v[|v| - 1].IsNull()]
  }

  function Tail(v: seq<TxOut>): seq<bool> {
    if |v| > 2 then Avail(v)[2..] else []
  }

  function Mask(v: seq<TxOut>): (m: seq<byte>)
    ensures m != [] ==> m[|m| - 1] != 0
  {
    TrimZeros(MaskBytes(Tail(v)))
  }

  /** Two flags for the first outputs, one for the coinbase, and the number of mask bytes that
      are not 0, less one when neither of the first outputs tells that there is one. */
  function Code(c: Coins): int {
    var fFirst, fSecond := c.IsAvailable(0), c.IsAvailable(1);
    8 * (Nonzeros(Mask(c.vout)) - if fFirst || fSecond then 0 else 1)
    + (if c.fCoinBase then 1 else 0) + (if fFirst then 2 else 0) + (if fSecond then 4 else 0)
  }

  /** A record with something unspent, nothing left of what is spent, and fields in range. */
  predicate Serializable(c: Coins) {
    && IsInt32(c.nVersion) && IsInt32(c.nHeight) && |c.vout| < 0x8000_0000
    && !c.IsPruned() && Wiped(c.vout) && AllStorable(c.vout)
  }

  /** The record that comes back: nothing spent at its end, and of a negative number the low
      seven bits. */
  function Reread(c: Coins): Coins {
    Coins(c.fCoinBase, Trim(c.vout), Restored(c.nHeight), Restored(c.nVersion))
  }

  lemma {:induction false} MaskLength(f: seq<bool>)
    ensures |MaskBytes(f)| == (|f| + 7) / 8
    decreases |f|
  {
    if |f| > 8 {
      MaskLength(f[8..]);
    } else if f != [] {
      assert f[|f|..] == [];
    }
  }

  /** Something unspent shows in the flags or in the mask. */
  lemma CodeFits(c: Coins)
    requires |c.vout| < 0x8000_0000 && !c.IsPruned()
    ensures 0 <= Code(c) < 0x1_0000_0000
  {
    var m := Mask(c.vout);
    MaskLength(Tail(c.vout));
    if !c.IsAvailable(0) && !c.IsAvailable(1) {
      var o :| o in c.vout && !o.IsNull();
      var i :| 0 <= i < |c.vout| && c.vout[i] == o;
      assert Bit(Tail(c.vout), i - 2);
      MaskKeepsBits(Tail(c.vout), i - 2);
      TrimKeepsBits(MaskBytes(Tail(c.vout)), i - 2);
      assert m != [];
    }
  }

  function CoinsBytes(points: Points, c: Coins): seq<byte>
    requires Serializable(c)
  {
    CodeFits(c);
    Encoding(c.nVersion) + VarInt(Code(c)) + Mask(c.vout) + OutsBytes(points, c.vout) + Encoding(c.nHeight)
  }

  function CoinsRead(points: Points, s: seq<byte>): Parsed<Coins> {
    match VarRead(s, 0, 32)
    case EndOfData => EndOfData
    case Done(nVersion, rest) =>
      match VarRead(rest, 0, 32)
      case EndOfData => EndOfData
      case Done(nCode, rest) => BodyRead(points, nVersion, nCode, rest)
  }

  function BodyRead(points: Points, nVersion: nat, nCode: nat, s: seq<byte>): Parsed<Coins> {
    match MaskRead(s, MaskCode(nCode))
    case EndOfData => EndOfData
    case Done(f, rest) =>
      match OutsRead(points, rest, Flags(nCode) + f)
      case EndOfData => EndOfData
      case Done(vout, rest) =>
        match VarRead(rest, 0, 32)
        case EndOfData => EndOfData
        case Done(nHeight, rest) => Done(Coins(nCode % 2 == 1, Trim(vout), ToInt32(nHeight), ToInt32(nVersion)), rest)
  }

  function MaskCode(nCode: nat): nat {
    nCode / 8 + if nCode / 2 % 4 != 0 then 0 else 1
  }

  function Flags(nCode: nat): seq<bool> {
    [nCode / 2 % 2 == 1, nCode / 4 % 2 == 1]
  }

  lemma CodeArithmetic(n: nat, a: nat, b: nat, c: nat)
    requires a <= 1 && b <= 1 && c <= 1
    ensures
      var code := 8 * n + c + 2 * a + 4 * b;
      code / 8 == n && code % 2 == c && code / 2 % 2 == a && code / 4 % 2 == b && code / 2 % 4 == a + 2 * b
  {
    var code := 8 * n + c + 2 * a + 4 * b;
    ResidueIsUnique(8, code, n, c + 2 * a + 4 * b);
    ResidueIsUnique(2, code, 4 * n + a + 2 * b, c);
    ResidueIsUnique(2, 4 * n + a + 2 * b, 2 * n + b, a);
    ResidueIsUnique(4, 4 * n + a + 2 * b, n, a + 2 * b);
    ResidueIsUnique(4, code, 2 * n + b, c + 2 * a);
    ResidueIsUnique(2, 2 * n + b, n, b);
  }

  lemma CodeParts(c: Coins)
    requires |c.vout| < 0x8000_0000 && !c.IsPruned()
    ensures Code(c) >= 0 && MaskCode(Code(c)) == Nonzeros(Mask(c.vout))
    ensures Flags(Code(c)) == [c.IsAvailable(0), c.IsAvailable(1)] && (Code(c) % 2 == 1 <==> c.fCoinBase)
  {
    hide Mask, Nonzeros, Coins.IsAvailable, Coins.IsPruned;
    CodeFits(c);
    var a, b := if c.IsAvailable(0) then 1 else 0, if c.IsAvailable(1) then 1 else 0;
    CodeArithmetic(Nonzeros(Mask(c.vout)) - (if a + b > 0 then 0 else 1), a, b, if c.fCoinBase then 1 else 0);
  }

  /** The bits that are read, against the outputs. */
  lemma ReadBits(v: seq<TxOut>, i: nat)
    ensures Bit([0 < |v| && !v[0].IsNull(), 1 < |v| && !v[1].IsNull()] + Unmask(Mask(v)), i) <==> i < |v| && !v[i].IsNull()
  {
    hide Unmask, MaskBytes, TrimZeros, Avail;
    if i >= 2 {
      MaskKeepsBits(Tail(v), i - 2);
      TrimKeepsBits(MaskBytes(Tail(v)), i - 2);
    }
  }

  lemma OutsFromMask(points: Points, v: seq<TxOut>, f: seq<bool>, t: seq<byte>)
    requires AllStorable(v) && Wiped(v) && forall i: nat :: Bit(f, i) <==> i < |v| && !v[i].IsNull()
    ensures
      var r := OutsRead(points, OutsBytes(points, v) + t, f);
      r.Done? && r.rest == t && Trim(r.value) == Trim(v)
  {
    hide OutsRead, OutsBytes, Storable, Trim;
    var k := if |v| < |f| then |v| else |f|;
    assert forall i | 0 <= i < |f| :: f[i] == Bit(f, i);
    assert forall i: nat | i < |v| && !v[i].IsNull() :: Bit(f, i);
    NullsAtEnd(points, v, k);
    OutsRoundTrip(points, v[..k], f[..k], t);
    OutsReadFalses(points, OutsBytes(points, v) + t, f, k);
    TrimPadded(v[..k], |f| - k);
  }

  lemma Int32Restored(x: int)
    requires IsInt32(x)
    ensures ToInt32(Restored(x)) == Restored(x)
  {
  }

  lemma BodyRoundTrip(points: Points, c: Coins, nCode: nat, t: seq<byte>)
    requires Serializable(c) && nCode == Code(c)
    ensures BodyRead(points, Restored(c.nVersion), nCode, Mask(c.vout) + (OutsBytes(points, c.vout) + (Encoding(c.nHeight) + t))) == Done(Reread(c), t)
  {
    hide VarInt, VarRead, Pow2, Code, OutsBytes, OutsRead, Mask, MaskRead, MaskCode, Flags, Unmask, Nonzeros, Trim, Storable, ByteOf, Bit;
    CodeParts(c);
    Widths();
    var mask, outs, height := Mask(c.vout), OutsBytes(points, c.vout), Encoding(c.nHeight);
    var f := [0 < |c.vout| && !c.vout[0].IsNull(), 1 < |c.vout| && !c.vout[1].IsNull()] + Unmask(mask);
    MaskRoundTrip(mask, outs + (height + t));
    forall i: nat ensures Bit(f, i) <==> i < |c.vout| && !c.vout[i].IsNull() { ReadBits(c.vout, i); }
    OutsFromMask(points, c.vout, f, height + t);
    ReadAfterEncoding(c.nHeight, t, 32);
    Int32Restored(c.nHeight);
    Int32Restored(c.nVersion);
  }

  /** What is written is read back, but for spent outputs at the end and the sign of its
      numbers, and nothing after it is touched. */
  lemma CoinsRoundTrip(points: Points, c: Coins, t: seq<byte>)
    requires Serializable(c)
    ensures CoinsRead(points, CoinsBytes(points, c) + t) == Done(Reread(c), t)
  {
    hide VarInt, VarRead, Pow2, OutsBytes, Mask, BodyRead, Code, Trim;
    Widths();
    CodeFits(c);
    var code, mask, outs, height := Code(c), Mask(c.vout), OutsBytes(points, c.vout), Encoding(c.nHeight);
    var body := mask + (outs + (height + t));
    BodyRoundTrip(points, c, code, t);
    ReadAfterEncoding(c.nVersion, VarInt(code) + body, 32);
    ReadAfterWrite(code, body, 32);
    assert CoinsBytes(points, c) + t == Encoding(c.nVersion) + (VarInt(code) + body);
  }

  /** A record as the unspent set holds it comes back as it was if and only if its version is
      not negative. */
  lemma CleanRecordsSurviveIff(points: Points, c: Coins, t: seq<byte>)
    requires Serializable(c) && Clean(c)
    ensures CoinsRead(points, CoinsBytes(points, c) + t) == Done(Reread(c), t)
    ensures CoinsRead(points, CoinsBytes(points, c) + t) == Done(c, t) <==> c.nVersion >= 0
    ensures Reread(c) == c.(nVersion := Reread(c).nVersion) && (c.nVersion < 0 ==> 0 <= Reread(c).nVersion < 128)
  {
    CoinsRoundTrip(points, c, t);
  }

  /** Version -1, which no rule forbids, comes back as 127. */
  lemma MinusOneReadsAs127(points: Points, c: Coins)
    requires Serializable(c) && Clean(c) && c.nVersion == -1
    ensures CoinsRead(points, CoinsBytes(points, c)) == Done(c.(nVersion := 127), [])
  {
    CleanRecordsSurviveIff(points, c, []);
    assert CoinsBytes(points, c) + [] == CoinsBytes(points, c);
  }
}
