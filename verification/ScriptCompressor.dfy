/** The compact form of scripts (script.h and script.cpp, CScriptCompressor): six special forms,
    all others by length. The curve's points are a table from compressed to full keys, so a
    full key is valid when its compressed form leads back to it. */
module ScriptCompressor {
  import opened Arithmetic
  import opened CoinRecords
  import opened VarInts

  const N_SPECIAL_SCRIPTS := 6
  const OP_DUP: byte := 0x76
  const OP_EQUAL: byte := 0x87
  const OP_EQUALVERIFY: byte := 0x88
  const OP_HASH160: byte := 0xa9
  const OP_CHECKSIG: byte := 0xac

  type Points = map<seq<byte>, seq<byte>>

  function CompressedKey(key: seq<byte>): seq<byte>
    requires |key| == 65
  {
    [2 + key[64] % 2] + key[1..33]
  }

  predicate ValidKey(points: Points, key: seq<byte>)
    requires |key| == 65
  {
    CompressedKey(key) in points && points[CompressedKey(key)] == key
  }

  predicate IsToKeyID(script: seq<byte>) {
    |script| == 25 && script[0] == OP_DUP && script[1] == OP_HASH160 && script[2] == 20 && script[23] == OP_EQUALVERIFY && script[24] == OP_CHECKSIG
  }

  predicate IsToScriptID(script: seq<byte>) {
    |script| == 23 && script[0] == OP_HASH160 && script[1] == 20 && script[22] == OP_EQUAL
  }

  predicate IsToShortKey(script: seq<byte>) {
    |script| == 35 && script[0] == 33 && script[34] == OP_CHECKSIG && (script[1] == 2 || script[1] == 3)
  }

  predicate IsToFullKey(points: Points, script: seq<byte>) {
    |script| == 67 && script[0] == 65 && script[66] == OP_CHECKSIG && script[1] == 4 && ValidKey(points, script[1..66])
  }

  datatype Option<+T> = None | Some(value: T)

  function Compress(points: Points, script: seq<byte>): Option<seq<byte>> {
    if IsToKeyID(script) then Some([0] + script[3..23])
    else if IsToScriptID(script) then Some([1] + script[2..22])
    else if IsToShortKey(script) then Some([script[1]] + script[2..34])
    else if IsToFullKey(points, script) then Some([4 + script[65] % 2] + script[2..34])
    else None
  }

  function GetSpecialSize(nSize: nat): nat {
    if nSize == 0 || nSize == 1 then 20 else if nSize == 2 || nSize == 3 || nSize == 4 || nSize == 5 then 32 else 0
  }

  function Decompress(points: Points, nSize: nat, vch: seq<byte>): Option<seq<byte>>
    requires |vch| == GetSpecialSize(nSize)
  {
    match nSize
    case 0 => Some([OP_DUP, OP_HASH160, 20] + vch + [OP_EQUALVERIFY, OP_CHECKSIG])
    case 1 => Some([OP_HASH160, 20] + vch + [OP_EQUAL])
    case 2 => Some([33, 2] + vch + [OP_CHECKSIG])
    case 3 => Some([33, 3] + vch + [OP_CHECKSIG])
    case 4 => if [2] + vch in points then Some([65] + points[[2] + vch] + [OP_CHECKSIG]) else None
    case 5 => if [3] + vch in points then Some([65] + points[[3] + vch] + [OP_CHECKSIG]) else None
    case _ => None
  }

  /** What compresses decompresses to itself; the code that leads the form is its own number. */
  lemma DecompressInverts(points: Points, script: seq<byte>)
    requires Compress(points, script).Some?
    ensures
      var c := Compress(points, script).value;
      && c != [] && c[0] < N_SPECIAL_SCRIPTS && |c| == 1 + GetSpecialSize(c[0])
      && Decompress(points, c[0], c[1..]) == Some(script)
  {
    var c := Compress(points, script).value;
    if IsToKeyID(script) {
      assert script == [OP_DUP, OP_HASH160, 20] + script[3..23] + [OP_EQUALVERIFY, OP_CHECKSIG];
    } else if IsToScriptID(script) {
      assert script == [OP_HASH160, 20] + script[2..22] + [OP_EQUAL];
    } else if IsToShortKey(script) {
      assert script == [33, script[1]] + script[2..34] + [OP_CHECKSIG];
    } else {
      FullKey(points, script);
    }
  }

  lemma FullKey(points: Points, script: seq<byte>)
    requires IsToFullKey(points, script)
    ensures Decompress(points, 4 + script[65] % 2, script[2..34]) == Some(script)
  {
    var key := script[1..66];
    assert key[1..33] == script[2..34] && key[64] == script[65];
    assert script == [65] + key + [OP_CHECKSIG];
  }

  // ---------- the stream ----------

  function ScriptBytes(points: Points, script: seq<byte>): seq<byte> {
    match Compress(points, script)
    case Some(c) => c
    case None => VarInt(|script| + N_SPECIAL_SCRIPTS) + script
  }

  function ScriptSize(points: Points, script: seq<byte>): nat {
    match Compress(points, script)
    case Some(c) => |c|
    case None => |script| + |VarInt(|script| + N_SPECIAL_SCRIPTS)|
  }

  /** Unserialize into an empty script: a special form that does not decompress leaves it empty. */
  function ReadScript(points: Points, s: seq<byte>): Parsed<seq<byte>> {
    match VarRead(s, 0, 32)
    case EndOfData => EndOfData
    case Done(nSize, rest) =>
      if nSize < N_SPECIAL_SCRIPTS then
        var k := GetSpecialSize(nSize);
        if |rest| < k then EndOfData
        else match Decompress(points, nSize, rest[..k])
          case Some(script) => Done(script, rest[k..])
          case None => Done([], rest[k..])
      else if |rest| < nSize - N_SPECIAL_SCRIPTS then EndOfData
      else Done(rest[..nSize - N_SPECIAL_SCRIPTS], rest[nSize - N_SPECIAL_SCRIPTS..])
  }

  /** Every script survives the round trip, in as many bytes as announced. */
  lemma ScriptRoundTrip(points: Points, script: seq<byte>, t: seq<byte>)
    requires |script| + N_SPECIAL_SCRIPTS < Pow2(32)
    ensures ReadScript(points, ScriptBytes(points, script) + t) == Done(script, t)
    ensures |ScriptBytes(points, script)| == ScriptSize(points, script)
  {
    match Compress(points, script) {
      case Some(c) => SpecialRoundTrip(points, script, c, t);
      case None => PlainRoundTrip(points, script, t);
    }
  }

  lemma SmallVarInt(n: byte)
    requires n < 128
    ensures VarInt(n) == [n] && n < Pow2(32)
  {
    assert Leading(0) == [];
    Pow2Sum(8, 24);
    assert Pow2(8) == 256;
    MulMono(256, 1, Pow2(24));
  }

  lemma SpecialRoundTrip(points: Points, script: seq<byte>, c: seq<byte>, t: seq<byte>)
    requires Compress(points, script) == Some(c)
    ensures ReadScript(points, c + t) == Done(script, t)
  {
    hide Compress, Decompress, VarInt, VarRead, Pow2;
    DecompressInverts(points, script);
    SmallVarInt(c[0]);
    ReadAfterWrite(c[0], c[1..] + t, 32);
    assert c + t == [c[0]] + (c[1..] + t);
    assert (c[1..] + t)[..|c| - 1] == c[1..] && (c[1..] + t)[|c| - 1..] == t;
  }

  lemma PlainRoundTrip(points: Points, script: seq<byte>, t: seq<byte>)
    requires Compress(points, script).None? && |script| + N_SPECIAL_SCRIPTS < Pow2(32)
    ensures ReadScript(points, VarInt(|script| + N_SPECIAL_SCRIPTS) + script + t) == Done(script, t)
  {
    hide Compress, Decompress, VarInt, VarRead, Pow2;
    var n := |script| + N_SPECIAL_SCRIPTS;
    ReadAfterWrite(n, script + t, 32);
    assert VarInt(n) + script + t == VarInt(n) + (script + t);
    assert (script + t)[..|script|] == script && (script + t)[|script|..] == t;
  }
}
