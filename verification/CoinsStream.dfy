/** Serialize, Unserialize and GetSerializeSize of CCoins (main.h), proved against the format. */
module CoinsStream {
  import opened Arithmetic
  import opened CoinRecords
  import opened VarInts
  import opened AmountCodec
  import opened ScriptCompressor
  import opened CoinsCodec

  // ---------- the mask, byte by byte ----------

  function Upto(f: seq<bool>, b: nat): (g: seq<bool>)
    requires 8 * b <= |f|
    ensures |g| <= 8
  {
    if 8 * b + 8 <= |f| then f[8 * b..8 * b + 8] else f[8 * b..]
  }

  lemma {:induction false} MaskByteAt(f: seq<bool>, b: nat)
    requires 8 * b < |f|
    ensures b < |MaskBytes(f)| && MaskBytes(f)[b] == ByteOf(Upto(f, b))
    decreases b
  {
    var k := if |f| < 8 then |f| else 8;
    EightBits(f[..k]);
    assert MaskBytes(f) == [ByteOf(f[..k])] + MaskBytes(f[k..]);
    if b > 0 {
      MaskByteAt(f[8..], b - 1);
      assert Upto(f[8..], b - 1) == Upto(f, b);
    } else {
      assert Upto(f, 0) == f[..k];
    }
  }

  /** The same byte, from the outputs. */
  lemma MaskByteOfOuts(vout: seq<TxOut>, b: nat)
    requires 2 + 8 * b < |vout|
    ensures 8 * b < |Tail(vout)| && b < |MaskBytes(Tail(vout))| && MaskBytes(Tail(vout))[b] == ByteOf(Upto(Tail(vout), b))
    ensures |Upto(Tail(vout), b)| == if 2 + 8 * b + 8 <= |vout| then 8 else |vout| - 2 - 8 * b
    ensures forall i | 0 <= i < |Upto(Tail(vout), b)| :: Upto(Tail(vout), b)[i] == !vout[2 + 8 * b + i].IsNull()
  {
    MaskByteAt(Tail(vout), b);
    hide ByteOf, MaskBytes;
  }

  lemma TakeOneMore(m: seq<byte>, b: nat)
    requires b < |m|
    ensures Nonzeros(m[..b + 1]) == Nonzeros(m[..b]) + if m[b] != 0 then 1 else 0
    ensures |TrimZeros(m[..b + 1])| == if m[b] != 0 then b + 1 else |TrimZeros(m[..b])|
  {
    assert m[..b + 1][..b] == m[..b];
  }

  /** CalcMaskSize: the mask's length up to its last used byte, and how many bytes are not 0. */
  method CalcMaskSize(vout: seq<TxOut>) returns (nBytes: nat, nNonzeroBytes: nat)
    ensures nBytes == |Mask(vout)| && nNonzeroBytes == Nonzeros(Mask(vout))
  {
    hide MaskBytes, ByteOf, Nonzeros, TrimZeros, Tail, Upto;
    ghost var m := MaskBytes(Tail(vout));
    nBytes, nNonzeroBytes := 0, 0;
    var b := 0;
    MaskEnds(vout);
    TrimKeepsNonzeros(m);
    while 2 + b * 8 < |vout|
      invariant b <= |m| && (2 + b * 8 < |vout| <==> b < |m|)
      invariant nNonzeroBytes == Nonzeros(m[..b]) && nBytes == |TrimZeros(m[..b])|
      decreases |m| - b
    {
      MaskByteOfOuts(vout, b);
      ghost var bits := Upto(Tail(vout), b);
      ZeroByte(bits);
      var fZero := true;
      var i := 0;
      while i < 8 && 2 + b * 8 + i < |vout|
        invariant 0 <= i <= |bits|
        invariant fZero <==> forall j | 0 <= j < i :: !bits[j]
      {
        assert bits[i] == !vout[2 + b * 8 + i].IsNull();
        if !vout[2 + b * 8 + i].IsNull() {
          fZero := false;
        }
        i := i + 1;
      }
      TakeOneMore(m, b);
      if !fZero {
        nBytes := b + 1;
        nNonzeroBytes := nNonzeroBytes + 1;
      }
      b := b + 1;
    }
    assert m[..b] == m;
  }

  lemma MaskEnds(vout: seq<TxOut>)
    ensures Nonzeros(MaskBytes(Tail(vout))[..0]) == 0 && |TrimZeros(MaskBytes(Tail(vout))[..0])| == 0
    ensures forall b: nat :: 2 + b * 8 < |vout| <==> b < |MaskBytes(Tail(vout))|
  {
    MaskLength(Tail(vout));
  }

  // ---------- writing ----------

  method WriteScript(points: Points, script: seq<byte>, s: seq<byte>) returns (os: seq<byte>)
    requires |script| < 0x8000_0000
    ensures os == s + ScriptBytes(points, script)
  {
    hide Compress, VarInt;
    ScriptFits(|script|);
    match Compress(points, script) {
      case Some(c) => os := s + c;
      case None =>
        os := WriteVarInt(s, |script| + N_SPECIAL_SCRIPTS, 32);
        os := os + script;
    }
  }

  method WriteOut(points: Points, o: TxOut, s: seq<byte>) returns (os: seq<byte>)
    requires Storable(o)
    ensures os == s + OutBytes(points, o)
  {
    hide VarInt, ScriptBytes, Compressed;
    AmountFits(o.nValue);
    var nVal := CompressAmount(o.nValue);
    os := WriteVarInt(s, nVal, 64);
    os := WriteScript(points, o.scriptPubKey, os);
  }

  method WriteMask(vout: seq<TxOut>, nMaskSize: nat, s: seq<byte>) returns (os: seq<byte>)
    requires nMaskSize == |Mask(vout)|
    ensures os == s + Mask(vout)
  {
    hide MaskBytes, ByteOf, TrimZeros, Tail, Upto;
    os := s;
    for b := 0 to nMaskSize
      invariant os == s + Mask(vout)[..b]
    {
      MaskIndex(vout, b);
      MaskByteOfOuts(vout, b);
      EightBits(Upto(Tail(vout), b));
      var chAvail := 0;
      var i := 0;
      EmptyByte(Upto(Tail(vout), b));
      while i < 8 && 2 + b * 8 + i < |vout|
        invariant 0 <= i <= |Upto(Tail(vout), b)|
        invariant chAvail == ByteOf(Upto(Tail(vout), b)[..i])
      {
        NextBit(Upto(Tail(vout), b), i);
        if !vout[2 + b * 8 + i].IsNull() {
          chAvail := chAvail + Pow2(i);
        }
        i := i + 1;
      }
      assert Upto(Tail(vout), b)[..i] == Upto(Tail(vout), b);
      os := os + [chAvail];
    }
    assert Mask(vout)[..nMaskSize] == Mask(vout);
  }

  lemma MaskIndex(vout: seq<TxOut>, b: nat)
    requires b < |Mask(vout)|
    ensures 2 + 8 * b < |vout| && b < |MaskBytes(Tail(vout))| && Mask(vout)[b] == MaskBytes(Tail(vout))[b]
  {
    MaskLength(Tail(vout));
  }

  lemma EmptyByte(f: seq<bool>)
    ensures ByteOf(f[..0]) == 0
  {
  }

  lemma NextBit(f: seq<bool>, i: nat)
    requires i < |f|
    ensures ByteOf(f[..i + 1]) == ByteOf(f[..i]) + if f[i] then Pow2(i) else 0
  {
    assert f[..i + 1] == f[..i] + [f[i]];
    ByteAppend(f[..i], f[i]);
  }

  method HeaderCode(c: Coins) returns (nMaskSize: nat, nCode: nat)
    requires |c.vout| < 0x8000_0000 && !c.IsPruned()
    ensures nMaskSize == |Mask(c.vout)| && nCode == Code(c) < 0x1_0000_0000
  {
    CodeFits(c);
    hide Mask, Nonzeros;
    var nMaskCode;
    nMaskSize, nMaskCode := CalcMaskSize(c.vout);
    var fFirst := |c.vout| > 0 && !c.vout[0].IsNull();
    var fSecond := |c.vout| > 1 && !c.vout[1].IsNull();
    assert fFirst || fSecond || nMaskCode > 0;
    nCode := 8 * (nMaskCode - if fFirst || fSecond then 0 else 1) + (if c.fCoinBase then 1 else 0)
             + (if fFirst then 2 else 0) + (if fSecond then 4 else 0);
  }

  method WriteOuts(points: Points, vout: seq<TxOut>, s: seq<byte>) returns (os: seq<byte>)
    requires AllStorable(vout)
    ensures os == s + OutsBytes(points, vout)
  {
    hide OutBytes, Storable;
    os := s;
    for i := 0 to |vout|
      invariant os == s + OutsBytes(points, vout[..i])
    {
      assert vout[..i + 1][..i] == vout[..i];
      if !vout[i].IsNull() {
        os := WriteOut(points, vout[i], os);
      }
    }
    assert vout[..|vout|] == vout;
  }

  /** CCoins::Serialize. */
  method Serialize(points: Points, c: Coins, s: seq<byte>) returns (os: seq<byte>)
    requires Serializable(c)
    ensures os == s + CoinsBytes(points, c)
  {
    hide VarInt, OutsBytes, Mask, Code, Pow2;
    Widths();
    var nMaskSize, nCode := HeaderCode(c);
    os := WriteVarInt(s, c.nVersion, 32);
    os := WriteVarInt(os, nCode, 32);
    os := WriteMask(c.vout, nMaskSize, os);
    os := WriteOuts(points, c.vout, os);
    os := WriteVarInt(os, c.nHeight, 32);
  }

  method ScriptSerializeSize(points: Points, script: seq<byte>) returns (nSize: nat)
    ensures nSize == |ScriptBytes(points, script)|
  {
    hide Compress, VarInt;
    match Compress(points, script) {
      case Some(c) => nSize := |c|;
      case None =>
        var nLength := GetSizeOfVarInt(|script| + N_SPECIAL_SCRIPTS);
        nSize := |script| + nLength;
    }
  }

  /** CCoins::GetSerializeSize: as many bytes as Serialize writes. */
  method GetSerializeSize(points: Points, c: Coins) returns (nSize: nat)
    requires Serializable(c)
    ensures nSize == |CoinsBytes(points, c)|
  {
    hide VarInt, Mask, Code, ScriptBytes, Compressed;
    var nMaskSize, nCode := HeaderCode(c);
    nSize := GetSizeOfVarInt(c.nVersion);
    var nPart := GetSizeOfVarInt(nCode);
    nSize := nSize + nPart + nMaskSize;
    ghost var head := nSize;
    for i := 0 to |c.vout|
      invariant nSize == head + |OutsBytes(points, c.vout[..i])|
    {
      assert c.vout[..i + 1][..i] == c.vout[..i];
      if !c.vout[i].IsNull() {
        var nVal := CompressAmount(c.vout[i].nValue);
        var nAmount := GetSizeOfVarInt(nVal);
        var nScript := ScriptSerializeSize(points, c.vout[i].scriptPubKey);
        nSize := nSize + nAmount + nScript;
      }
    }
    assert c.vout[..|c.vout|] == c.vout;
    nPart := GetSizeOfVarInt(c.nHeight);
    nSize := nSize + nPart;
  }

  // ---------- reading ----------

  method UnserializeScript(points: Points, s: seq<byte>) returns (r: Parsed<seq<byte>>)
    ensures r == ReadScript(points, s)
  {
    hide VarRead, Decompress, GetSpecialSize;
    var n := ReadVarInt(s, 32);
    if n.EndOfData? {
      return EndOfData;
    }
    var nSize, rest := n.value, n.rest;
    if nSize < N_SPECIAL_SCRIPTS {
      var k := GetSpecialSize(nSize);
      if |rest| < k {
        return EndOfData;
      }
      match Decompress(points, nSize, rest[..k]) {
        case Some(script) => return Done(script, rest[k..]);
        case None => return Done([], rest[k..]);
      }
    }
    nSize := nSize - N_SPECIAL_SCRIPTS;
    if |rest| < nSize {
      return EndOfData;
    }
    return Done(rest[..nSize], rest[nSize..]);
  }

  method UnserializeOut(points: Points, s: seq<byte>) returns (r: Parsed<TxOut>)
    ensures r == OutRead(points, s)
  {
    hide VarRead, ReadScript, Decompressed, Pow2;
    Widths();
    ReadFits(s, 0, 64);
    var n := ReadVarInt(s, 64);
    if n.EndOfData? {
      return EndOfData;
    }
    var nValue := DecompressAmount(n.value);
    SameInt64(Decompressed(n.value), nValue);
    var script := UnserializeScript(points, n.rest);
    if script.EndOfData? {
      return EndOfData;
    }
    return Done(TxOut(ToInt64(nValue), script.value), script.rest);
  }

  lemma SameInt64(x: nat, y: nat)
    requires y == x % UINT64
    ensures ToInt64(x) == ToInt64(y)
  {
  }

  lemma MaskReadAppends(f: seq<bool>, b: byte, s: seq<byte>, nMaskCode: nat)
    requires nMaskCode > 0 && s != [] && b == s[0]
    ensures Prepend(f, MaskRead(s, nMaskCode)) == Prepend(f + BitsOf(b, 8), MaskRead(s[1..], if b != 0 then nMaskCode - 1 else nMaskCode))
  {
    hide BitsOf;
    var r := MaskRead(s[1..], if b != 0 then nMaskCode - 1 else nMaskCode);
    if r.Done? { assert f + (BitsOf(b, 8) + r.value) == f + BitsOf(b, 8) + r.value; }
  }

  function Prepend(f: seq<bool>, r: Parsed<seq<bool>>): Parsed<seq<bool>> {
    match r
    case EndOfData => EndOfData
    case Done(g, rest) => Done(f + g, rest)
  }

  /** Appends the eight bits of a byte. */
  method PushBits(vAvail: seq<bool>, chAvail: byte) returns (f: seq<bool>)
    ensures f == vAvail + BitsOf(chAvail, 8)
  {
    f := vAvail;
    hide BitsOf, Pow2;
    for p := 0 to 8
      invariant f == vAvail + BitsOf(chAvail, 8)[..p]
    {
      BitAt(chAvail, 8, p);
      f := f + [chAvail / Pow2(p) % 2 != 0];
    }
    assert BitsOf(chAvail, 8)[..8] == BitsOf(chAvail, 8);
  }

  method UnserializeMask(nCode: nat, s: seq<byte>) returns (r: Parsed<seq<bool>>)
    ensures r == Prepend(Flags(nCode), MaskRead(s, MaskCode(nCode)))
  {
    var vAvail := [nCode / 2 % 2 == 1, nCode / 4 % 2 == 1];
    var nMaskCode := nCode / 8 + if nCode / 2 % 4 != 0 then 0 else 1;
    var rest := s;
    hide BitsOf, Pow2;
    while nMaskCode > 0
      invariant nMaskCode >= 0 && Prepend(Flags(nCode), MaskRead(s, MaskCode(nCode))) == Prepend(vAvail, MaskRead(rest, nMaskCode))
      decreases |rest|
    {
      if rest == [] {
        return EndOfData;
      }
      var chAvail := rest[0];
      MaskReadAppends(vAvail, chAvail, rest, nMaskCode);
      rest := rest[1..];
      vAvail := PushBits(vAvail, chAvail);
      if chAvail != 0 {
        nMaskCode := nMaskCode - 1;
      }
    }
    assert vAvail + [] == vAvail;
    r := Done(vAvail, rest);
  }

  lemma {:induction false} OutsReadFails(points: Points, s: seq<byte>, f: seq<bool>, k: nat)
    requires k <= |f| && OutsRead(points, s, f[..k]).EndOfData?
    ensures OutsRead(points, s, f).EndOfData?
  {
    hide OutRead;
    if k == |f| {
      assert f[..k] == f;
    } else {
      assert f[..|f| - 1][..k] == f[..k];
      OutsReadFails(points, s, f[..|f| - 1], k);
    }
  }

  method UnserializeOuts(points: Points, vAvail: seq<bool>, s: seq<byte>) returns (r: Parsed<seq<TxOut>>)
    ensures r == OutsRead(points, s, vAvail)
  {
    hide OutRead;
    var vout, rest := [], s;
    for i := 0 to |vAvail|
      invariant OutsRead(points, s, vAvail[..i]) == Done(vout, rest)
    {
      assert vAvail[..i + 1][..i] == vAvail[..i];
      var o := NULL_OUT;
      if vAvail[i] {
        var p := UnserializeOut(points, rest);
        if p.EndOfData? {
          OutsReadFails(points, s, vAvail, i + 1);
          return EndOfData;
        }
        o, rest := p.value, p.rest;
      }
      vout := vout + [o];
    }
    assert vAvail[..|vAvail|] == vAvail;
    r := Done(vout, rest);
  }

  /** CCoins::Unserialize, which cleans up at the end. An early end of data leaves the object half read. */
  method Unserialize(coins: CCoins, points: Points, s: seq<byte>) returns (r: Parsed<()>)
    modifies coins
    ensures r.EndOfData? <==> CoinsRead(points, s).EndOfData?
    ensures r.Done? ==> CoinsRead(points, s) == Done(coins.Value(), r.rest)
  {
    hide VarRead, OutsRead, MaskRead, Flags, MaskCode, Trim;
    var nVersion := ReadVarInt(s, 32);
    if nVersion.EndOfData? { return EndOfData; }
    coins.nVersion := ToInt32(nVersion.value);
    var nCode := ReadVarInt(nVersion.rest, 32);
    if nCode.EndOfData? { return EndOfData; }
    coins.fCoinBase := nCode.value % 2 == 1;
    var vAvail := UnserializeMask(nCode.value, nCode.rest);
    if vAvail.EndOfData? { return EndOfData; }
    var vout := UnserializeOuts(points, vAvail.value, vAvail.rest);
    if vout.EndOfData? { return EndOfData; }
    coins.vout := vout.value;
    var nHeight := ReadVarInt(vout.rest, 32);
    if nHeight.EndOfData? { return EndOfData; }
    coins.nHeight := ToInt32(nHeight.value);
    coins.Cleanup();
    r := Done((), nHeight.rest);
  }

  /** Writing a record and reading it into another object copies it, whatever follows, if its
      version is not negative. */
  method CopyThroughStream(points: Points, c: Coins, t: seq<byte>) returns (coins: CCoins, rest: seq<byte>)
    requires Serializable(c) && Clean(c)
    ensures coins.Value() == Reread(c) && rest == t && (coins.Value() == c <==> c.nVersion >= 0)
  {
    hide *;
    CleanRecordsSurviveIff(points, c, t);
    coins := new CCoins(EMPTY_COINS);
    var os := Serialize(points, c, []);
    var r := Unserialize(coins, points, os + t);
    assert [] + CoinsBytes(points, c) == CoinsBytes(points, c);
    rest := r.rest;
  }
}
