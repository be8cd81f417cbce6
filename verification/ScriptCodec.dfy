/** Scripts as bytes: instructions, numbers and the static signature-operation counts
    (script.h, CScript; script.cpp, GetSigOpCount). */
module ScriptCodec {
  import opened CoinRecords

  type valtype = seq<byte>

  const OP_0: nat := 0x00
  const OP_PUSHDATA1: nat := 0x4c
  const OP_PUSHDATA2: nat := 0x4d
  const OP_PUSHDATA4: nat := 0x4e
  const OP_1NEGATE: nat := 0x4f
  const OP_1: nat := 0x51
  const OP_16: nat := 0x60
  const OP_NOP: nat := 0x61
  const OP_IF: nat := 0x63
  const OP_NOTIF: nat := 0x64
  const OP_ELSE: nat := 0x67
  const OP_ENDIF: nat := 0x68
  const OP_VERIFY: nat := 0x69
  const OP_RETURN: nat := 0x6a
  const OP_EQUAL: nat := 0x87
  const OP_HASH160: nat := 0xa9
  const OP_CODESEPARATOR: nat := 0xab
  const OP_CHECKSIG: nat := 0xac
  const OP_CHECKSIGVERIFY: nat := 0xad
  const OP_CHECKMULTISIG: nat := 0xae
  const OP_CHECKMULTISIGVERIFY: nat := 0xaf
  const OP_NOP1: nat := 0xb0
  const OP_NOP10: nat := 0xb9
  const OP_INVALIDOPCODE: nat := 0xff

  // ---------- instructions ----------

  /** The result of GetOp at an instruction boundary. */
  datatype Instruction = Bad | Instruction(opcode: nat, vchRet: valtype, next: nat)

  function LittleEndian(s: seq<byte>): nat {
    if s == [] then 0 else s[0] + 256 * LittleEndian(s[1..])
  }

  /** GetOp2: an opcode and, for a push, its operand. */
  function GetOp(script: seq<byte>, pc: nat): (r: Instruction)
    ensures r.Instruction? ==> pc < r.next <= |script| && r.opcode == script[pc] && r.opcode < 256
    ensures r.Instruction? && r.opcode > OP_PUSHDATA4 ==> r.vchRet == [] && r.next == pc + 1
  {
    if pc >= |script| then Bad
    else
      var opcode: nat := script[pc];
      if opcode > OP_PUSHDATA4 then Instruction(opcode, [], pc + 1)
      else
        var width := if opcode < OP_PUSHDATA1 then 0 else if opcode == OP_PUSHDATA1 then 1 else if opcode == OP_PUSHDATA2 then 2 else 4;
        var start := pc + 1 + width;
        if start > |script| then Bad
        else
          var nSize := if width == 0 then opcode else LittleEndian(script[pc + 1..start]);
          if |script| - start < nSize then Bad
          else Instruction(opcode, script[start..start + nSize], start + nSize)
  }

  /** The whole script consists of pushes. */
  predicate IsPushOnlyFrom(script: seq<byte>, pc: nat)
    decreases |script| - pc
  {
    pc >= |script| ||
    match GetOp(script, pc)
    case Bad => false
    case Instruction(opcode, _, next) => opcode <= OP_16 && IsPushOnlyFrom(script, next)
  }

  /** The last instruction of a script of pushes. */
  function LastFrom(script: seq<byte>, pc: nat, opcode: nat, data: valtype): (nat, valtype)
    decreases |script| - pc
  {
    match GetOp(script, pc)
    case Bad => (opcode, data)
    case Instruction(op, vch, next) => LastFrom(script, next, op, vch)
  }

  method IsPushOnly(script: seq<byte>) returns (r: bool)
    ensures r == IsPushOnlyFrom(script, 0)
  {
    var pc := 0;
    r := true;
    while r && pc < |script|
      invariant IsPushOnlyFrom(script, 0) == (r && IsPushOnlyFrom(script, pc))
      decreases r, |script| - pc
    {
      match GetOp(script, pc) {
        case Bad => r := false;
        case Instruction(opcode, _, next) =>
          if opcode > OP_16 {
            r := false;
          } else {
            pc := next;
          }
      }
    }
  }

  predicate IsPayToScriptHash(script: seq<byte>) {
    |script| == 23 && script[0] == OP_HASH160 && script[1] == 0x14 && script[22] == OP_EQUAL
  }

  /** A size in a given number of bytes, lowest first. */
  function SizeBytes(n: nat, width: nat): (s: seq<byte>)
    ensures |s| == width
  {
    if width == 0 then [] else [n % 256] + SizeBytes(n / 256, width - 1)
  }

  /** How many bytes of size a push of n bytes carries. */
  function SizeWidth(n: nat): nat {
    if n < OP_PUSHDATA1 then 0 else if n <= 0xff then 1 else if n <= 0xffff then 2 else 4
  }

  /** A byte sequence pushed onto a script. */
  function PushData(b: valtype): seq<byte> {
    var width := SizeWidth(|b|);
    var opcode := if width == 0 then |b| else if width == 1 then OP_PUSHDATA1 else if width == 2 then OP_PUSHDATA2 else OP_PUSHDATA4;
    [opcode] + SizeBytes(|b|, width) + b
  }

  function Pow256(k: nat): nat {
    if k == 0 then 1 else 256 * Pow256(k - 1)
  }

  lemma {:induction false} SizeBytesValue(n: nat, width: nat)
    requires n < Pow256(width)
    ensures LittleEndian(SizeBytes(n, width)) == n
  {
    if width > 0 { SizeBytesValue(n / 256, width - 1); }
  }

  lemma SizeIsRead(n: nat)
    requires n < 0x1_0000_0000
    ensures SizeWidth(n) > 0 ==> LittleEndian(SizeBytes(n, SizeWidth(n))) == n
  {
    assert Pow256(1) == 256 && Pow256(2) == 0x1_0000 && Pow256(3) == 0x100_0000 && Pow256(4) == 0x1_0000_0000;
    if SizeWidth(n) > 0 { SizeBytesValue(n, SizeWidth(n)); }
  }

  /** What was pushed is what the instruction reads. */
  lemma PushIsRead(b: valtype)
    requires |b| < 0x1_0000_0000
    ensures GetOp(PushData(b), 0) == Instruction(PushData(b)[0], b, |PushData(b)|)
  {
    var width := SizeWidth(|b|);
    SizeIsRead(|b|);
    var s := PushData(b);
    assert s[1..1 + width] == SizeBytes(|b|, width) && s[1 + width..1 + width + |b|] == b;
    hide LittleEndian, SizeBytes;
  }

  // ---------- numbers ----------

  function Magnitude(n: nat): (s: seq<byte>)
    ensures n > 0 ==> s != [] && s[|s| - 1] != 0
  {
    if n == 0 then [] else [n % 256] + Magnitude(n / 256)
  }

  lemma {:induction false} MagnitudeValue(n: nat)
    ensures LittleEndian(Magnitude(n)) == n
  {
    if n > 0 { MagnitudeValue(n / 256); }
  }

  /** A magnitude with the sign in its last byte, or in one more. */
  function WithSign(m: seq<byte>, fNegative: bool): valtype
    requires m != []
  {
    var top := m[|m| - 1];
    if top >= 128 then m + [if fNegative then 128 else 0] else m[|m| - 1 := top + (if fNegative then 128 else 0)]
  }

  /** CBigNum::getvch: little-endian magnitude, the sign in the top bit of the last byte. */
  function EncodeNum(n: int): valtype {
    if n == 0 then [] else WithSign(Magnitude(if n < 0 then -n else n), n < 0)
  }

  /** CBigNum::setvch. */
  function DecodeNum(s: valtype): int {
    if s == [] then 0
    else
      var top := s[|s| - 1];
      var m: int := LittleEndian(s[|s| - 1 := top % 128]);
      if top >= 128 then -m else m
  }

  lemma {:induction false} LittleEndianZero(s: seq<byte>)
    ensures LittleEndian(s + [0]) == LittleEndian(s)
  {
    if s != [] {
      LittleEndianZero(s[1..]);
      assert (s + [0])[1..] == s[1..] + [0];
    }
  }

  lemma SignIsRead(m: seq<byte>, fNegative: bool)
    requires m != []
    ensures var n: int := LittleEndian(m); DecodeNum(WithSign(m, fNegative)) == if fNegative then -n else n
  {
    LittleEndianZero(m);
    hide LittleEndian;
    var s := WithSign(m, fNegative);
    if m[|m| - 1] >= 128 {
      assert s[|s| - 1 := 0] == m + [0];
    } else {
      assert s[|s| - 1 := m[|m| - 1]] == m;
    }
  }

  /** Numbers survive the stack. */
  lemma NumRoundTrip(n: int)
    ensures DecodeNum(EncodeNum(n)) == n
  {
    if n != 0 {
      var a := if n < 0 then -n else n;
      MagnitudeValue(a);
      SignIsRead(Magnitude(a), n < 0);
      hide LittleEndian, Magnitude, DecodeNum;
    }
  }

  function CastToBool(vch: valtype): bool {
    exists i :: 0 <= i < |vch| && vch[i] != 0 && !(i == |vch| - 1 && vch[i] == 0x80)
  }

  lemma {:induction false} LittleEndianIsZero(s: seq<byte>)
    ensures LittleEndian(s) == 0 <==> forall i | 0 <= i < |s| :: s[i] == 0
  {
    if s != [] {
      LittleEndianIsZero(s[1..]);
      assert s == [s[0]] + s[1..];
    }
  }

  /** A stack entry is true exactly when it is not the number zero. */
  lemma TrueIsNotZero(vch: valtype)
    ensures CastToBool(vch) <==> DecodeNum(vch) != 0
  {
    if vch != [] {
      var last := |vch| - 1;
      var t := vch[last := vch[last] % 128];
      LittleEndianIsZero(t);
      assert forall i | 0 <= i < last :: t[i] == vch[i];
      assert t[last] == 0 <==> vch[last] == 0 || vch[last] == 0x80;
    }
  }

  /** What a push instruction puts on the stack. */
  function Pushed(opcode: nat, data: valtype): valtype {
    if opcode <= OP_PUSHDATA4 then data else EncodeNum(opcode - (OP_1 - 1))
  }

  // ---------- signature operations ----------

  /** An instruction's share of the count. */
  function SigOpsOf(opcode: nat, lastOpcode: nat, fAccurate: bool): nat {
    if opcode == OP_CHECKSIG || opcode == OP_CHECKSIGVERIFY then 1
    else if opcode == OP_CHECKMULTISIG || opcode == OP_CHECKMULTISIGVERIFY then
      if fAccurate && OP_1 <= lastOpcode <= OP_16 then lastOpcode - (OP_1 - 1) else 20
    else 0
  }

  function SigOpsFrom(script: seq<byte>, pc: nat, lastOpcode: nat, fAccurate: bool): nat
    decreases |script| - pc
  {
    match GetOp(script, pc)
    case Bad => 0
    case Instruction(opcode, _, next) => SigOpsOf(opcode, lastOpcode, fAccurate) + SigOpsFrom(script, next, opcode, fAccurate)
  }

  function SigOps(script: seq<byte>, fAccurate: bool): nat {
    SigOpsFrom(script, 0, OP_INVALIDOPCODE, fAccurate)
  }

  method GetSigOpCount(script: seq<byte>, fAccurate: bool) returns (n: nat)
    ensures n == SigOps(script, fAccurate)
  {
    n := 0;
    var pc: nat, lastOpcode: nat := 0, OP_INVALIDOPCODE;
    while pc < |script|
      invariant n + SigOpsFrom(script, pc, lastOpcode, fAccurate) == SigOps(script, fAccurate)
      decreases |script| - pc
    {
      var r := GetOp(script, pc);
      if r.Bad? {
        break;
      }
      if r.opcode == OP_CHECKSIG || r.opcode == OP_CHECKSIGVERIFY {
        n := n + 1;
      } else if r.opcode == OP_CHECKMULTISIG || r.opcode == OP_CHECKMULTISIGVERIFY {
        if fAccurate && lastOpcode >= OP_1 && lastOpcode <= OP_16 {
          n := n + (lastOpcode - (OP_1 - 1));
        } else {
          n := n + 20;
        }
      }
      lastOpcode := r.opcode;
      pc := r.next;
    }
  }

  /** Counting accurately never counts more. */
  lemma {:induction false} AccurateCountsLess(script: seq<byte>, pc: nat, lastOpcode: nat)
    ensures SigOpsFrom(script, pc, lastOpcode, true) <= SigOpsFrom(script, pc, lastOpcode, false)
    decreases |script| - pc
  {
    match GetOp(script, pc) {
      case Bad =>
      case Instruction(opcode, _, next) => AccurateCountsLess(script, next, opcode);
    }
  }

  /** The count for a spend through scriptPubKey: that of the script it pays to, if any. */
  function P2SHSigOps(scriptPubKey: seq<byte>, scriptSig: seq<byte>): nat {
    if !IsPayToScriptHash(scriptPubKey) then SigOps(scriptPubKey, true)
    else if !IsPushOnlyFrom(scriptSig, 0) then 0
    else SigOps(LastFrom(scriptSig, 0, OP_INVALIDOPCODE, []).1, true)
  }

  method GetSigOpCountOfSpend(scriptPubKey: seq<byte>, scriptSig: seq<byte>) returns (n: nat)
    ensures n == P2SHSigOps(scriptPubKey, scriptSig)
  {
    if !IsPayToScriptHash(scriptPubKey) {
      n := GetSigOpCount(scriptPubKey, true);
    } else {
      var pc := 0;
      var data: valtype := [];
      ghost var opcode := OP_INVALIDOPCODE;
      while pc < |scriptSig|
        invariant IsPushOnlyFrom(scriptSig, 0) == IsPushOnlyFrom(scriptSig, pc)
        invariant LastFrom(scriptSig, 0, OP_INVALIDOPCODE, []) == LastFrom(scriptSig, pc, opcode, data)
        decreases |scriptSig| - pc
      {
        var r := GetOp(scriptSig, pc);
        if r.Bad? || r.opcode > OP_16 {
          return 0;
        }
        pc, data, opcode := r.next, r.vchRet, r.opcode;
      }
      n := GetSigOpCount(data, true);
    }
  }

  // ---------- FindAndDelete ----------

  predicate StartsAt(script: seq<byte>, pc: nat, b: seq<byte>) {
    pc + |b| <= |script| && script[pc..pc + |b|] == b
  }

  /** No instruction from pc on starts with b. */
  predicate NoneStartsWith(script: seq<byte>, pc: nat, b: seq<byte>)
    decreases |script| - pc
  {
    !StartsAt(script, pc, b) &&
    match GetOp(script, pc)
    case Bad => true
    case Instruction(_, _, next) => NoneStartsWith(script, next, b)
  }

  /** b is one whole instruction, as the pushes of signatures are. */
  predicate OneInstruction(b: seq<byte>) {
    GetOp(b, 0).Instruction? && GetOp(b, 0).next == |b|
  }

  /** The instructions from a lead to pc, and none of them starts with b. */
  predicate CleanTo(script: seq<byte>, a: nat, pc: nat, b: seq<byte>)
    decreases |script| - a
  {
    a == pc
    || (!StartsAt(script, a, b) &&
        match GetOp(script, a)
        case Bad => false
        case Instruction(_, _, next) => next <= pc && CleanTo(script, next, pc, b))
  }

  /** An instruction is read from its own bytes only. */
  lemma GetOpLocal(s: seq<byte>, t: seq<byte>, pc: nat, k: nat)
    requires k <= |s| && k <= |t| && s[..k] == t[..k]
    requires GetOp(s, pc).Instruction? && GetOp(s, pc).next <= k
    ensures GetOp(t, pc) == GetOp(s, pc)
  {
    var r := GetOp(s, pc);
    assert s[..k][pc] == t[..k][pc] == s[pc] == t[pc];
    SliceOfPrefix(s, t, k);
  }

  lemma SliceOfPrefix(s: seq<byte>, t: seq<byte>, k: nat)
    requires k <= |s| && k <= |t| && s[..k] == t[..k]
    ensures forall i, j | 0 <= i <= j <= k :: s[i..j] == t[i..j]
  {
    forall i, j | 0 <= i <= j <= k ensures s[i..j] == t[i..j] {
      assert s[i..j] == s[..k][i..j] && t[i..j] == t[..k][i..j];
    }
  }

  lemma SliceOfSlice(s: seq<byte>, a: nat, c: nat, i: nat, j: nat)
    requires a <= c <= |s| && i <= j <= c - a
    ensures s[a..c][i..j] == s[a + i..a + j]
  {
    assert forall k | 0 <= k < j - i :: s[a..c][i..j][k] == s[a + i..a + j][k];
  }

  /** Where one instruction starts, it ends with it. */
  lemma StartIsWhole(s: seq<byte>, a: nat, b: seq<byte>)
    requires OneInstruction(b) && StartsAt(s, a, b)
    ensures GetOp(s, a).Instruction? && GetOp(s, a).next == a + |b|
  {
    forall i, j | 0 <= i <= j <= |b| ensures s[a + i..a + j] == b[i..j] {
      SliceOfSlice(s, a, a + |b|, i, j);
    }
    assert s[a..a + |b|][0] == s[a];
    var width := if b[0] < OP_PUSHDATA1 then 0 else if b[0] == OP_PUSHDATA1 then 1 else if b[0] == OP_PUSHDATA2 then 2 else 4;
    if b[0] <= OP_PUSHDATA4 {
      assert s[a + 1..a + 1 + width] == b[1..1 + width];
    }
  }

  /** Deleting at pc leaves the instructions before it as they were. */
  lemma {:induction false} CleanKept(s: seq<byte>, t: seq<byte>, a: nat, pc: nat, b: seq<byte>)
    requires OneInstruction(b) && pc <= |s| && pc <= |t| && s[..pc] == t[..pc] && CleanTo(s, a, pc, b)
    ensures CleanTo(t, a, pc, b)
    decreases |s| - a
  {
    if a != pc {
      GetOpLocal(s, t, a, pc);
      SliceOfPrefix(s, t, pc);
      if StartsAt(t, a, b) {
        StartIsWhole(t, a, b);
      }
      CleanKept(s, t, GetOp(s, a).next, pc, b);
    }
  }

  lemma {:induction false} CleanExtends(s: seq<byte>, a: nat, pc: nat, b: seq<byte>)
    requires CleanTo(s, a, pc, b) && !StartsAt(s, pc, b) && GetOp(s, pc).Instruction?
    ensures CleanTo(s, a, GetOp(s, pc).next, b)
    decreases |s| - a
  {
    if a != pc { CleanExtends(s, GetOp(s, a).next, pc, b); }
  }

  lemma {:induction false} CleanEnds(s: seq<byte>, a: nat, pc: nat, b: seq<byte>)
    requires CleanTo(s, a, pc, b) && NoneStartsWith(s, pc, b)
    ensures NoneStartsWith(s, a, b)
    decreases |s| - a
  {
    if a != pc { CleanEnds(s, GetOp(s, a).next, pc, b); }
  }

  /** A script without the b's at its instruction boundaries: its other instructions, one after
      the other, up to the first that is malformed. */
  function Without(t: seq<byte>, b: seq<byte>): seq<byte>
    decreases |t|
  {
    if b == [] then t
    else if StartsAt(t, 0, b) then Without(t[|b|..], b)
    else match GetOp(t, 0)
      case Bad => t
      case Instruction(_, _, next) => t[..next] + Without(t[next..], b)
  }

  lemma GetOpShift(s: seq<byte>, pc: nat)
    requires pc <= |s|
    ensures GetOp(s, pc).Bad? <==> GetOp(s[pc..], 0).Bad?
    ensures GetOp(s, pc).Instruction? ==>
              var r := GetOp(s[pc..], 0);
              GetOp(s, pc) == Instruction(r.opcode, r.vchRet, pc + r.next)
  {
    hide LittleEndian;
    if pc < |s| {
      var width := if s[pc] < OP_PUSHDATA1 then 0 else if s[pc] == OP_PUSHDATA1 then 1 else if s[pc] == OP_PUSHDATA2 then 2 else 4;
      if pc + 1 + width <= |s| { assert s[pc..][1..1 + width] == s[pc + 1..pc + 1 + width]; }
      if GetOp(s, pc).Instruction? {
        var n := |GetOp(s, pc).vchRet|;
        if s[pc] <= OP_PUSHDATA4 { SliceOfSlice(s, pc, |s|, 1 + width, 1 + width + n); }
      }
    }
  }

  lemma StartsShift(s: seq<byte>, pc: nat, b: seq<byte>)
    requires pc <= |s|
    ensures StartsAt(s, pc, b) <==> StartsAt(s[pc..], 0, b)
  {
    if pc + |b| <= |s| { assert s[pc..][0..|b|] == s[pc..pc + |b|]; }
  }

  /** What is settled up to pc, and what is still to be gone through. */
  ghost predicate SoFar(script: seq<byte>, r: seq<byte>, pc: nat, b: seq<byte>) {
    pc <= |r| && r[..pc] + Without(r[pc..], b) == Without(script, b)
  }

  lemma SoFarDelete(script: seq<byte>, r: seq<byte>, pc: nat, b: seq<byte>)
    requires SoFar(script, r, pc, b) && b != [] && StartsAt(r, pc, b)
    ensures SoFar(script, r[..pc] + r[pc + |b|..], pc, b)
  {
    StartsShift(r, pc, b);
    hide GetOp, StartsAt;
    var t := r[..pc] + r[pc + |b|..];
    assert t[..pc] == r[..pc] && t[pc..] == r[pc..][|b|..];
  }

  lemma WithoutStep(t: seq<byte>, b: seq<byte>)
    requires b != [] && !StartsAt(t, 0, b)
    ensures Without(t, b) == if GetOp(t, 0).Bad? then t else t[..GetOp(t, 0).next] + Without(t[GetOp(t, 0).next..], b)
  {
  }

  lemma SoFarNext(script: seq<byte>, r: seq<byte>, pc: nat, b: seq<byte>)
    requires SoFar(script, r, pc, b) && b != [] && !StartsAt(r, pc, b)
    ensures GetOp(r, pc).Instruction? ==> SoFar(script, r, GetOp(r, pc).next, b)
    ensures GetOp(r, pc).Bad? ==> r == Without(script, b)
  {
    hide Without, GetOp, StartsAt;
    StartsShift(r, pc, b);
    GetOpShift(r, pc);
    WithoutStep(r[pc..], b);
    if GetOp(r, pc).Instruction? {
      Rejoin(r, pc, GetOp(r, pc).next, Without(r[GetOp(r, pc).next..], b));
    } else {
      assert r[..pc] + r[pc..] == r;
    }
  }

  lemma Rejoin(r: seq<byte>, pc: nat, next: nat, rest: seq<byte>)
    requires pc <= next <= |r|
    ensures r[pc..][next - pc..] == r[next..] && r[..pc] + (r[pc..][..next - pc] + rest) == r[..next] + rest
  {
    assert r[pc..][..next - pc] == r[pc..next];
    assert r[..pc] + r[pc..next] == r[..next];
  }

  /** Deletes b wherever an instruction starts with it. When b is itself one instruction none
      is left that does. */
  method FindAndDelete(script: seq<byte>, b: seq<byte>) returns (r: seq<byte>, nFound: nat)
    ensures r == Without(script, b) && |r| + nFound * |b| == |script|
    ensures OneInstruction(b) ==> NoneStartsWith(r, 0, b)
  {
    hide Without, NoneStartsWith, CleanTo, OneInstruction, GetOp, StartsAt, SoFar;
    r, nFound := script, 0;
    NothingYet(script, b);
    if b == [] {
      return;
    }
    var pc: nat := 0;
    var more := true;
    while more
      invariant pc <= |r| && |r| + nFound * |b| == |script|
      invariant OneInstruction(b) ==> CleanTo(r, 0, pc, b)
      invariant if more then SoFar(script, r, pc, b) else NoneStartsWith(r, pc, b) && r == Without(script, b)
      decreases more, |r| - pc
    {
      while StartsAt(r, pc, b)
        invariant pc <= |r| && |r| + nFound * |b| == |script|
        invariant OneInstruction(b) ==> CleanTo(r, 0, pc, b)
        invariant SoFar(script, r, pc, b)
        decreases |r|
      {
        StartFits(r, pc, b);
        var t := r[..pc] + r[pc + |b|..];
        if OneInstruction(b) {
          assert t[..pc] == r[..pc];
          CleanKept(r, t, 0, pc, b);
        }
        SoFarDelete(script, r, pc, b);
        r := t;
        nFound := nFound + 1;
      }
      SoFarNext(script, r, pc, b);
      match GetOp(r, pc) {
        case Bad =>
          NothingHere(r, pc, b);
          more := false;
        case Instruction(_, _, next) =>
          if OneInstruction(b) {
            CleanExtends(r, 0, pc, b);
          }
          pc := next;
      }
    }
    if OneInstruction(b) {
      CleanEnds(r, 0, pc, b);
    }
  }

  lemma NothingYet(script: seq<byte>, b: seq<byte>)
    ensures SoFar(script, script, 0, b) && CleanTo(script, 0, 0, b) && (b == [] ==> Without(script, b) == script && !OneInstruction(b))
  {
    assert script[..0] + Without(script[0..], b) == Without(script, b) by { assert script[0..] == script; }
  }

  lemma StartFits(r: seq<byte>, pc: nat, b: seq<byte>)
    requires StartsAt(r, pc, b)
    ensures pc + |b| <= |r|
  {
  }

  lemma NothingHere(r: seq<byte>, pc: nat, b: seq<byte>)
    requires GetOp(r, pc).Bad? && !StartsAt(r, pc, b)
    ensures NoneStartsWith(r, pc, b)
  {
  }
}
