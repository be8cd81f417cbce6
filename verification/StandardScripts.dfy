/** What the standard output scripts mean: who can spend an output that pays to a key, to the
    hash of a key, to several keys or to the hash of a script (script.cpp, the templates of
    Solver and the runs of EvalScript and VerifyScript on them). */
module StandardScripts {
  import opened CoinRecords
  import opened ScriptCodec
  import opened Multisig
  import opened ScriptEngine

  // ---------- reading ----------

  /** A script that pushes these strings in turn. */
  function Pushes(bs: seq<valtype>): seq<byte> {
    if bs == [] then [] else PushData(bs[0]) + Pushes(bs[1..])
  }

  /** No string is above the size limit of a stack entry. */
  predicate Small(bs: seq<valtype>) {
    forall i | 0 <= i < |bs| :: |bs[i]| <= 520
  }

  /** What of a script is still to be read. */
  predicate At(script: seq<byte>, pc: nat, rest: seq<byte>) {
    pc <= |script| && script[pc..] == rest
  }

  lemma AtStart(script: seq<byte>)
    ensures At(script, 0, script)
  {
  }

  lemma ReadPush(script: seq<byte>, pc: nat, b: valtype, rest: seq<byte>)
    requires At(script, pc, PushData(b) + rest) && |b| < 0x1_0000_0000
    ensures GetOp(script, pc) == Instruction(PushData(b)[0], b, pc + |PushData(b)|) && PushData(b)[0] <= 0x4e
    ensures pc < |script| && At(script, pc + |PushData(b)|, rest)
  {
    GetOpShift(script, pc);
    PushIsRead(b);
    GetOpLocal(PushData(b), script[pc..], 0, |PushData(b)|);
    hide GetOp, SizeBytes;
    assert script[pc..][|PushData(b)|..] == rest;
  }

  lemma ReadOp(script: seq<byte>, pc: nat, opcode: byte, rest: seq<byte>)
    requires At(script, pc, [opcode] + rest) && opcode > 0x4e
    ensures GetOp(script, pc) == Instruction(opcode, [], pc + 1)
    ensures pc < |script| && At(script, pc + 1, rest)
  {
    assert script[pc..][0] == opcode;
    assert script[pc..][1..] == rest;
  }

  lemma NoByteSize(n: nat)
    ensures SizeBytes(n, 0) == []
  {
  }

  lemma OneByteSize(n: byte)
    ensures SizeBytes(n, 1) == [n]
  {
    assert SizeBytes(n / 256, 0) == [];
  }

  lemma TwoByteSize(low: byte, high: byte)
    ensures SizeBytes(256 * high + low, 2) == [low, high]
  {
    OneByteSize(high);
    var n := 256 * high + low;
    assert n % 256 == low && n / 256 == high;
  }

  lemma ShortPush(b: valtype)
    requires |b| <= 75
    ensures PushData(b) == [|b|] + b
  {
    hide SizeBytes;
    NoByteSize(|b|);
    assert [|b|] + [] == [|b|];
  }

  lemma OneBytePush(b: valtype)
    requires 76 <= |b| <= 255
    ensures PushData(b) == [0x4c, |b|] + b
  {
    hide SizeBytes;
    OneByteSize(|b|);
    assert [0x4c] + [|b|] == [0x4c, |b|];
  }

  lemma TwoBytePush(b: valtype)
    requires 256 <= |b| <= 65535
    ensures PushData(b) == [0x4d, |b| % 256, |b| / 256] + b
  {
    hide SizeBytes;
    TwoByteSize(|b| % 256, |b| / 256);
    assert [0x4d] + [|b| % 256, |b| / 256] == [0x4d, |b| % 256, |b| / 256];
  }

  lemma FourBytePush(b: valtype)
    requires |b| >= 65536
    ensures PushData(b) == [0x4e] + SizeBytes(|b|, 4) + b
  {
    hide SizeBytes;
  }

  /** The four forms of a push. */
  lemma PushForms(b: valtype)
    ensures |b| <= 75 ==> PushData(b) == [|b|] + b
    ensures 76 <= |b| <= 255 ==> PushData(b) == [0x4c, |b|] + b
    ensures 256 <= |b| <= 65535 ==> PushData(b) == [0x4d, |b| % 256, |b| / 256] + b
    ensures |b| >= 65536 ==> PushData(b) == [0x4e] + SizeBytes(|b|, 4) + b
  {
    hide SizeBytes, PushData;
    if |b| <= 75 { ShortPush(b); } else if |b| <= 255 { OneBytePush(b); } else if |b| <= 65535 { TwoBytePush(b); } else { FourBytePush(b); }
  }

  // ---------- running ----------

  lemma RunPush(m: Machine, script: seq<byte>, pc: nat, b: valtype, rest: seq<byte>, fStrict: bool, checker: CSignatureChecker)
    requires |script| <= 10000 && At(script, pc, PushData(b) + rest) && m.nBeginCodeHash <= |script| && m.vfExec == []
    ensures At(script, pc + |PushData(b)|, rest)
    ensures Run(m, script, pc, fStrict, checker) ==
            if |b| > 520 || |m.stack| + |m.altstack| >= 1000 then Stop
            else Run(m.(stack := m.stack + [b]), script, pc + |PushData(b)|, fStrict, checker)
  {
    hide GetOp, PushData, Run, Executed, Disabled, AllTrue, At;
    PushFits(script, pc, b, rest);
    ReadPush(script, pc, b, rest);
    RunStep(m, script, pc, fStrict, checker);
    NothingIsFalse();
    NoPushIsDisabled(PushData(b)[0]);
  }

  lemma PushFits(script: seq<byte>, pc: nat, b: valtype, rest: seq<byte>)
    requires At(script, pc, PushData(b) + rest)
    ensures |b| <= |script|
  {
  }

  lemma NothingIsFalse()
    ensures AllTrue([])
  {
  }

  lemma NoPushIsDisabled(opcode: nat)
    requires opcode <= 0x4e
    ensures !Disabled(opcode)
  {
  }

  /** Pushes run through, within the limits. */
  lemma {:induction false} RunPushes(m: Machine, script: seq<byte>, pc: nat, bs: seq<valtype>, rest: seq<byte>, fStrict: bool, checker: CSignatureChecker)
    requires |script| <= 10000 && At(script, pc, Pushes(bs) + rest) && m.nBeginCodeHash <= |script| && m.vfExec == []
    requires |m.stack| + |m.altstack| <= 1000
    ensures At(script, pc + |Pushes(bs)|, rest)
    ensures Run(m, script, pc, fStrict, checker) ==
            if Small(bs) && |m.stack| + |m.altstack| + |bs| <= 1000
            then Run(m.(stack := m.stack + bs), script, pc + |Pushes(bs)|, fStrict, checker) else Stop
    decreases |bs|
  {
    hide Run, PushData, At;
    if bs == [] {
      assert m.stack + bs == m.stack && [] + rest == rest;
    } else {
      assert Pushes(bs) + rest == PushData(bs[0]) + (Pushes(bs[1..]) + rest);
      RunPush(m, script, pc, bs[0], Pushes(bs[1..]) + rest, fStrict, checker);
      assert Small(bs) <==> |bs[0]| <= 520 && Small(bs[1..]) by { assert bs == [bs[0]] + bs[1..]; }
      hide Small;
      if |bs[0]| <= 520 && |m.stack| + |m.altstack| < 1000 {
        RunPushes(m.(stack := m.stack + [bs[0]]), script, pc + |PushData(bs[0])|, bs[1..], rest, fStrict, checker);
        assert m.stack + [bs[0]] + bs[1..] == m.stack + bs;
      } else {
        PushesGoOn(script, pc + |PushData(bs[0])|, bs[1..], rest);
      }
    }
  }

  lemma PushesGoOn(script: seq<byte>, pc: nat, bs: seq<valtype>, rest: seq<byte>)
    requires At(script, pc, Pushes(bs) + rest)
    ensures At(script, pc + |Pushes(bs)|, rest)
  {
    assert script[pc..][|Pushes(bs)|..] == rest;
    hide Pushes;
  }

  /** One opcode that the limit on operations counts. */
  lemma RunOp(m: Machine, script: seq<byte>, pc: nat, opcode: byte, rest: seq<byte>, fStrict: bool, checker: CSignatureChecker)
    requires At(script, pc, [opcode] + rest) && m.nBeginCodeHash <= |script| && m.vfExec == []
    requires opcode > 0x60 && !Disabled(opcode) && m.nOpCount <= 200
    ensures pc < |script| && At(script, pc + 1, rest)
    ensures var r := Executed(opcode, m.(nOpCount := m.nOpCount + 1), script, pc + 1, true, fStrict, checker);
            Run(m, script, pc, fStrict, checker) ==
            if r.Stop? || |r.m.stack| + |r.m.altstack| > 1000 then Stop else Run(r.m, script, pc + 1, fStrict, checker)
  {
    hide GetOp, Run, Executed, Disabled, AllTrue, At;
    ReadOp(script, pc, opcode, rest);
    RunStep(m, script, pc, fStrict, checker);
    NothingIsFalse();
  }

  /** OP_1 to OP_16. */
  lemma RunNumber(m: Machine, script: seq<byte>, pc: nat, n: nat, rest: seq<byte>, fStrict: bool, checker: CSignatureChecker)
    requires 1 <= n <= 16 && At(script, pc, [0x50 + n] + rest) && m.nBeginCodeHash <= |script| && m.vfExec == []
    ensures At(script, pc + 1, rest)
    ensures Run(m, script, pc, fStrict, checker) ==
            if |m.stack| + |m.altstack| >= 1000 then Stop
            else Run(m.(stack := m.stack + [EncodeNum(n)]), script, pc + 1, fStrict, checker)
  {
    hide GetOp, Run, AllTrue, At, PlainOp, BranchOp, SignatureEffect, EncodeNum;
    ReadOp(script, pc, 0x50 + n, rest);
    RunStep(m, script, pc, fStrict, checker);
    NothingIsFalse();
  }

  lemma RunEnd(m: Machine, script: seq<byte>, pc: nat, fStrict: bool, checker: CSignatureChecker)
    requires m.vfExec == [] && m.nBeginCodeHash <= |script| && At(script, pc, [])
    ensures Run(m, script, pc, fStrict, checker) == Go(m)
  {
  }

  lemma EvalPushes(stack: seq<valtype>, bs: seq<valtype>, fStrict: bool, checker: CSignatureChecker)
    requires |stack| <= 1000
    ensures Eval(stack, Pushes(bs), fStrict, checker) ==
            if |Pushes(bs)| <= 10000 && Small(bs) && |stack| + |bs| <= 1000 then Go(Machine(stack + bs, [], [], 0, 0)) else Stop
  {
    hide Pushes, Small, Run, At;
    if |Pushes(bs)| <= 10000 {
      AtStart(Pushes(bs));
      assert Pushes(bs) == Pushes(bs) + [];
      RunPushes(Machine(stack, [], [], 0, 0), Pushes(bs), 0, bs, [], fStrict, checker);
      if Small(bs) && |stack| + |bs| <= 1000 {
        RunEnd(Machine(stack + bs, [], [], 0, 0), Pushes(bs), |Pushes(bs)|, fStrict, checker);
      }
    }
  }

  // ---------- branches ----------

  lemma RunPushInBranch(m: Machine, script: seq<byte>, pc: nat, b: valtype, rest: seq<byte>, fStrict: bool, checker: CSignatureChecker)
    requires |script| <= 10000 && At(script, pc, PushData(b) + rest) && m.nBeginCodeHash <= |script|
    requires |m.vfExec| == 1 && |b| <= 520 && |m.stack| + |m.altstack| < 1000
    ensures At(script, pc + |PushData(b)|, rest)
    ensures Run(m, script, pc, fStrict, checker) ==
            Run(m.(stack := m.stack + if m.vfExec[0] then [b] else []), script, pc + |PushData(b)|, fStrict, checker)
  {
    hide GetOp, PushData, Run, Executed, Disabled, At;
    ReadPush(script, pc, b, rest);
    RunStep(m, script, pc, fStrict, checker);
    NoPushIsDisabled(PushData(b)[0]);
    assert m.stack + [] == m.stack;
    assert AllTrue(m.vfExec) == m.vfExec[0];
  }

  lemma {:induction false} RunPushesInBranch(m: Machine, script: seq<byte>, pc: nat, bs: seq<valtype>, rest: seq<byte>, fStrict: bool, checker: CSignatureChecker)
    requires |script| <= 10000 && At(script, pc, Pushes(bs) + rest) && m.nBeginCodeHash <= |script|
    requires |m.vfExec| == 1 && Small(bs) && |m.stack| + |m.altstack| + |bs| <= 1000
    ensures At(script, pc + |Pushes(bs)|, rest)
    ensures Run(m, script, pc, fStrict, checker) ==
            Run(m.(stack := m.stack + if m.vfExec[0] then bs else []), script, pc + |Pushes(bs)|, fStrict, checker)
    decreases |bs|
  {
    hide Run, PushData, At;
    assert m.stack + [] == m.stack;
    if bs == [] {
      assert [] + rest == rest;
    } else {
      assert Pushes(bs) + rest == PushData(bs[0]) + (Pushes(bs[1..]) + rest);
      RunPushInBranch(m, script, pc, bs[0], Pushes(bs[1..]) + rest, fStrict, checker);
      var m1 := m.(stack := m.stack + if m.vfExec[0] then [bs[0]] else []);
      RunPushesInBranch(m1, script, pc + |PushData(bs[0])|, bs[1..], rest, fStrict, checker);
      assert m.stack + [bs[0]] + bs[1..] == m.stack + bs;
    }
  }

  lemma RunBranchOp(m: Machine, script: seq<byte>, pc: nat, opcode: byte, rest: seq<byte>, fStrict: bool, checker: CSignatureChecker)
    requires At(script, pc, [opcode] + rest) && m.nBeginCodeHash <= |script|
    requires 0x63 <= opcode <= 0x68 && m.nOpCount <= 200 && |m.stack| + |m.altstack| <= 1000
    ensures At(script, pc + 1, rest)
    ensures var r := BranchOp(opcode, m.(nOpCount := m.nOpCount + 1), AllTrue(m.vfExec));
            Run(m, script, pc, fStrict, checker) == if r.Stop? then Stop else Run(r.m, script, pc + 1, fStrict, checker)
  {
    hide GetOp, Run, AllTrue, At;
    ReadOp(script, pc, opcode, rest);
    RunStep(m, script, pc, fStrict, checker);
  }

  lemma RunIf(m: Machine, base: seq<valtype>, x: valtype, fNot: bool, script: seq<byte>, pc: nat, rest: seq<byte>, fStrict: bool, checker: CSignatureChecker)
    requires At(script, pc, [if fNot then 0x64 else 0x63] + rest) && m.nBeginCodeHash <= |script|
    requires m.vfExec == [] && m.stack == base + [x] && m.nOpCount <= 200 && |m.stack| + |m.altstack| <= 1000
    ensures At(script, pc + 1, rest)
    ensures Run(m, script, pc, fStrict, checker) ==
            Run(m.(stack := base, vfExec := [CastToBool(x) != fNot], nOpCount := m.nOpCount + 1), script, pc + 1, fStrict, checker)
  {
    hide Run, CastToBool, At;
    RunBranchOp(m, script, pc, if fNot then 0x64 else 0x63, rest, fStrict, checker);
    TopOfSum(base, [x], 1);
    NothingIsFalse();
    assert [] + [CastToBool(x) != fNot] == [CastToBool(x) != fNot];
  }

  lemma RunElse(m: Machine, script: seq<byte>, pc: nat, rest: seq<byte>, fStrict: bool, checker: CSignatureChecker)
    requires At(script, pc, [0x67] + rest) && m.nBeginCodeHash <= |script|
    requires |m.vfExec| == 1 && m.nOpCount <= 200 && |m.stack| + |m.altstack| <= 1000
    ensures At(script, pc + 1, rest)
    ensures Run(m, script, pc, fStrict, checker) == Run(m.(vfExec := [!m.vfExec[0]], nOpCount := m.nOpCount + 1), script, pc + 1, fStrict, checker)
  {
    hide Run, At;
    RunBranchOp(m, script, pc, 0x67, rest, fStrict, checker);
    assert m.vfExec[0 := !m.vfExec[0]] == [!m.vfExec[0]];
  }

  lemma RunEndIf(m: Machine, script: seq<byte>, pc: nat, rest: seq<byte>, fStrict: bool, checker: CSignatureChecker)
    requires At(script, pc, [0x68] + rest) && m.nBeginCodeHash <= |script|
    requires |m.vfExec| == 1 && m.nOpCount <= 200 && |m.stack| + |m.altstack| <= 1000
    ensures At(script, pc + 1, rest)
    ensures Run(m, script, pc, fStrict, checker) == Run(m.(vfExec := [], nOpCount := m.nOpCount + 1), script, pc + 1, fStrict, checker)
  {
    hide Run, At;
    RunBranchOp(m, script, pc, 0x68, rest, fStrict, checker);
    assert m.vfExec[..0] == [];
  }

  /** OP_IF and OP_NOTIF choose between two branches by the entry that they take. */
  lemma BranchIsChosen(m: Machine, base: seq<valtype>, x: valtype, fNot: bool, a: seq<valtype>, b: seq<valtype>, script: seq<byte>, pc: nat,
                       rest: seq<byte>, fStrict: bool, checker: CSignatureChecker)
    requires |script| <= 10000 && m.nBeginCodeHash <= |script| && m.vfExec == [] && m.stack == base + [x]
    requires At(script, pc, [if fNot then 0x64 else 0x63] + (Pushes(a) + ([0x67] + (Pushes(b) + ([0x68] + rest)))))
    requires Small(a) && Small(b) && m.nOpCount <= 198 && |m.stack| + |m.altstack| + |a| + |b| <= 1000
    ensures
      var chosen := if CastToBool(x) != fNot then a else b;
      var end := pc + 3 + |Pushes(a)| + |Pushes(b)|;
      && At(script, end, rest)
      && Run(m, script, pc, fStrict, checker) == Run(m.(stack := base + chosen, nOpCount := m.nOpCount + 3), script, end, fStrict, checker)
  {
    hide Run, Pushes, Small, CastToBool, At;
    var taken := CastToBool(x) != fNot;
    var toElse := [0x67] + (Pushes(b) + ([0x68] + rest));
    RunIf(m, base, x, fNot, script, pc, Pushes(a) + toElse, fStrict, checker);
    var m1 := m.(vfExec := [taken], stack := base, nOpCount := m.nOpCount + 1);
    RunPushesInBranch(m1, script, pc + 1, a, toElse, fStrict, checker);
    var m2 := m1.(stack := base + if taken then a else []);
    RunElse(m2, script, pc + 1 + |Pushes(a)|, Pushes(b) + ([0x68] + rest), fStrict, checker);
    var m3 := m2.(vfExec := [!taken], nOpCount := m.nOpCount + 2);
    RunPushesInBranch(m3, script, pc + 2 + |Pushes(a)|, b, [0x68] + rest, fStrict, checker);
    var m4 := m3.(stack := base + if taken then a else b);
    assert m3.stack + (if taken then [] else b) == m4.stack;
    RunEndIf(m4, script, pc + 2 + |Pushes(a)| + |Pushes(b)|, rest, fStrict, checker);
  }

  // ---------- limits ----------

  /** The instructions of a script up to the first that is malformed. */
  function Instructions(script: seq<byte>, pc: nat): seq<Instruction>
    decreases |script| - pc
  {
    match GetOp(script, pc)
    case Bad => []
    case Instruction(_, _, next) => [GetOp(script, pc)] + Instructions(script, next)
  }

  /** How many of them the limit counts. */
  function Operations(ops: seq<Instruction>): nat {
    if ops == [] then 0 else (if ops[0].Instruction? && ops[0].opcode > 0x60 then 1 else 0) + Operations(ops[1..])
  }

  predicate Allowed(op: Instruction) {
    op.Instruction? && |op.vchRet| <= 520
    && op.opcode !in {0x65, 0x66, 0x7e, 0x7f, 0x80, 0x81, 0x83, 0x84, 0x85, 0x86, 0x8d, 0x8e, 0x95, 0x96, 0x97, 0x98, 0x99}
  }

  lemma StepKeepsLimits(op: Instruction, m: Machine, script: seq<byte>, fStrict: bool, checker: CSignatureChecker)
    requires op.Instruction? && m.nBeginCodeHash <= |script| && op.next <= |script|
    ensures
      var r := Step(op, m, script, fStrict, checker);
      r.Go? ==>
        && Allowed(op) && |r.m.stack| + |r.m.altstack| <= 1000
        && r.m.nOpCount >= m.nOpCount + (if op.opcode > 0x60 then 1 else 0)
        && (m.nOpCount <= 201 ==> r.m.nOpCount <= 201)
  {
    hide PlainOp, CheckSigEffect, Column, WithoutAll, ReadCounts, CSignatureChecker.Assignable, HashOp, VerifyOp, AllTrue, EncodeNum;
  }

  predicate WellFormed(script: seq<byte>, pc: nat)
    decreases |script| - pc
  {
    pc >= |script| || (GetOp(script, pc).Instruction? && WellFormed(script, GetOp(script, pc).next))
  }

  lemma {:induction false} RunKeepsLimits(m: Machine, script: seq<byte>, pc: nat, fStrict: bool, checker: CSignatureChecker)
    requires m.nBeginCodeHash <= |script| && pc <= |script| && m.nOpCount <= 201
    requires Run(m, script, pc, fStrict, checker).Go?
    ensures WellFormed(script, pc) && forall op | op in Instructions(script, pc) :: Allowed(op)
    ensures m.nOpCount + Operations(Instructions(script, pc)) <= 201
    decreases |script| - pc
  {
    hide Step, Allowed;
    if pc < |script| {
      StepKeepsLimits(GetOp(script, pc), m, script, fStrict, checker);
      var r := Step(GetOp(script, pc), m, script, fStrict, checker);
      RunKeepsLimits(r.m, script, GetOp(script, pc).next, fStrict, checker);
    }
  }

  /** A script that succeeds is within every limit, in the branches that it passed over, too. */
  lemma EvalWithinLimits(stack: seq<valtype>, script: seq<byte>, fStrict: bool, checker: CSignatureChecker)
    requires Eval(stack, script, fStrict, checker).Go?
    ensures |script| <= 10000 && WellFormed(script, 0)
    ensures forall op | op in Instructions(script, 0) :: Allowed(op)
    ensures Operations(Instructions(script, 0)) <= 201
  {
    hide Run, Instructions, Operations, WellFormed;
    RunKeepsLimits(Machine(stack, [], [], 0, 0), script, 0, fStrict, checker);
  }

  // ---------- the script that is signed ----------

  /** The strings that are not in the other list, in their order. */
  function NotAmong(keys: seq<valtype>, sigs: seq<valtype>): seq<valtype> {
    if keys == [] then [] else (if keys[0] in sigs then [] else [keys[0]]) + NotAmong(keys[1..], sigs)
  }

  lemma SamePush(b: valtype, c: valtype, rest: seq<byte>)
    requires |b| < 0x1_0000_0000 && |c| < 0x1_0000_0000 && StartsAt(PushData(b) + rest, 0, PushData(c))
    ensures b == c
  {
    hide PushData, GetOp;
    var s := PushData(b) + rest;
    AtStart(s);
    ReadPush(s, 0, b, rest);
    assert s == PushData(c) + s[|PushData(c)|..];
    ReadPush(s, 0, c, s[|PushData(c)|..]);
  }

  lemma WithoutPush(b: valtype, c: valtype, rest: seq<byte>)
    requires |b| < 0x1_0000_0000 && |c| < 0x1_0000_0000
    ensures Without(PushData(b) + rest, PushData(c)) == (if b == c then [] else PushData(b)) + Without(rest, PushData(c))
  {
    assert PushData(c) != [];
    hide PushData, GetOp, Without;
    var s := PushData(b) + rest;
    AtStart(s);
    assert s[..|PushData(b)|] == PushData(b) && s[|PushData(b)|..] == rest;
    ReadPush(s, 0, b, rest);
    if b == c {
      assert StartsAt(s, 0, PushData(c));
      WithoutHere(s, PushData(c));
      assert [] + Without(rest, PushData(c)) == Without(rest, PushData(c));
    } else {
      if StartsAt(s, 0, PushData(c)) { SamePush(b, c, rest); }
      WithoutStep(s, PushData(c));
    }
  }

  lemma WithoutHere(t: seq<byte>, b: seq<byte>)
    requires b != [] && StartsAt(t, 0, b)
    ensures Without(t, b) == Without(t[|b|..], b)
  {
  }

  lemma WithoutOp(opcode: byte, c: valtype, rest: seq<byte>)
    requires opcode > 0x4e
    ensures Without([opcode] + rest, PushData(c)) == [opcode] + Without(rest, PushData(c))
  {
    var s := [opcode] + rest;
    assert !StartsAt(s, 0, PushData(c)) by { assert PushData(c)[0] <= 0x4e; }
    hide PushData, Without;
    AtStart(s);
    ReadOp(s, 0, opcode, rest);
    WithoutStep(s, PushData(c));
  }

  lemma WithoutNothing(c: valtype)
    ensures Without([], PushData(c)) == []
  {
  }

  lemma {:induction false} WithoutPushes(keys: seq<valtype>, c: valtype, rest: seq<byte>)
    requires Small(keys) && |c| <= 520
    ensures Without(Pushes(keys) + rest, PushData(c)) == Pushes(NotAmong(keys, [c])) + Without(rest, PushData(c))
  {
    hide PushData, Without;
    if keys == [] {
      assert [] + rest == rest && [] + Without(rest, PushData(c)) == Without(rest, PushData(c));
    } else {
      var tail := Pushes(keys[1..]);
      assert Pushes(keys) + rest == PushData(keys[0]) + (tail + rest);
      WithoutPush(keys[0], c, tail + rest);
      WithoutPushes(keys[1..], c, rest);
      PushesOfSum(if keys[0] == c then [] else [keys[0]], NotAmong(keys[1..], [c]));
      PushesOne(keys[0]);
      hide Pushes;
    }
  }

  lemma PushesOne(b: valtype)
    ensures Pushes([b]) == PushData(b)
  {
    hide PushData;
  }

  lemma {:induction false} PushesOfSum(front: seq<valtype>, bs: seq<valtype>)
    ensures Pushes(front + bs) == Pushes(front) + Pushes(bs)
  {
    hide PushData;
    if front == [] {
      assert front + bs == bs;
      assert [] + Pushes(bs) == Pushes(bs);
    } else {
      var rest := front[1..];
      PushesOfSum(rest, bs);
      PushesFirst(front);
      PushesFirst(front + bs);
      hide Pushes;
      assert (front + bs)[1..] == rest + bs;
      Regroup(PushData(front[0]), Pushes(rest), Pushes(bs));
    }
  }

  lemma PushesFirst(bs: seq<valtype>)
    requires bs != []
    ensures Pushes(bs) == PushData(bs[0]) + Pushes(bs[1..])
  {
  }

  lemma Regroup(a: seq<byte>, b: seq<byte>, c: seq<byte>)
    ensures a + (b + c) == a + b + c
  {
  }

  // ---------- pay to a key ----------

  lemma TruthOfVerdict(rest: seq<valtype>, b: bool)
    ensures TrueOnTop(rest + [if b then vchTrue else vchFalse]) <==> b
  {
    if b { assert vchTrue[0] == 1; }
  }

  /** A pushed string spends an output that pays to a key if and only if it is a signature that
      is good for the key, on the output's script. */
  lemma PayToPubKey(sig: valtype, key: valtype, fP2SH: bool, fStrict: bool, checker: CSignatureChecker)
    ensures
      var signed := (if key == sig then [] else PushData(key)) + [0xac];
      Verified(PushData(sig), PushData(key) + [0xac], fP2SH, fStrict, checker) <==>
        |sig| <= 520 && |key| <= 520 && checker.Good(fStrict, sig, key, signed)
  {
    var script := PushData(key) + [0xac];
    PushesOne(sig);
    PushesOne(key);
    EvalPushes([], [sig], fStrict, checker);
    assert [] + [sig] == [sig];
    assert |sig| <= 520 ==> |PushData(sig)| <= 10000;
    assert !IsPayToScriptHash(script);
    assert Small([sig]) <==> |sig| <= 520;
    if |sig| <= 520 {
      EvalPubKey(sig, key, fStrict, checker);
    }
  }

  lemma ExecuteCheckSig(m: Machine, base: seq<valtype>, sig: valtype, key: valtype, script: seq<byte>, next: nat, fStrict: bool, checker: CSignatureChecker)
    requires m.stack == base + [sig, key] && m.nBeginCodeHash == 0 && next <= |script|
    ensures Executed(0xac, m, script, next, true, fStrict, checker) ==
            Go(m.(stack := base + [if checker.Good(fStrict, sig, key, Without(script, PushData(sig))) then vchTrue else vchFalse]))
  {
    hide Without, PushData, CSignatureChecker.Good, PlainOp, BranchOp;
    TopOfSum(base, [sig, key], 1);
    TopOfSum(base, [sig, key], 2);
    assert script[0..] == script;
  }

  lemma EndsWithVerdict(m: Machine, rest: seq<valtype>, b: bool, script: seq<byte>, pc: nat, fStrict: bool, checker: CSignatureChecker)
    requires At(script, pc, []) && m.nBeginCodeHash <= |script| && m.vfExec == [] && m.stack == rest + [if b then vchTrue else vchFalse]
    ensures var r := Run(m, script, pc, fStrict, checker); r.Go? && (TrueOnTop(r.m.stack) <==> b)
  {
    hide Run, At, TrueOnTop;
    RunEnd(m, script, pc, fStrict, checker);
    TruthOfVerdict(rest, b);
  }

  /** A script that ends in a signature check. */
  lemma RunCheckSig(m: Machine, base: seq<valtype>, sig: valtype, key: valtype, script: seq<byte>, pc: nat, fStrict: bool, checker: CSignatureChecker)
    requires At(script, pc, [0xac])
    requires m.stack == base + [sig, key] && m.vfExec == [] && m.nBeginCodeHash == 0 && m.nOpCount <= 200 && |m.stack| + |m.altstack| <= 1000
    ensures
      var r := Run(m, script, pc, fStrict, checker);
      r.Go? && (TrueOnTop(r.m.stack) <==> checker.Good(fStrict, sig, key, Without(script, PushData(sig))))
  {
    hide PushData, Run, CSignatureChecker.Good, TrueOnTop, Executed, Without, At;
    assert [0xac] + [] == [0xac];
    RunOp(m, script, pc, 0xac, [], fStrict, checker);
    var m1 := m.(nOpCount := m.nOpCount + 1);
    ExecuteCheckSig(m1, base, sig, key, script, pc + 1, fStrict, checker);
    var b := checker.Good(fStrict, sig, key, Without(script, PushData(sig)));
    EndsWithVerdict(m1.(stack := base + [if b then vchTrue else vchFalse]), base, b, script, pc + 1, fStrict, checker);
  }

  lemma EvalPubKey(sig: valtype, key: valtype, fStrict: bool, checker: CSignatureChecker)
    requires |sig| <= 520
    ensures
      var signed := (if key == sig then [] else PushData(key)) + [0xac];
      var r := Eval([sig], PushData(key) + [0xac], fStrict, checker);
      r.Go? && TrueOnTop(r.m.stack) <==> |key| <= 520 && checker.Good(fStrict, sig, key, signed)
  {
    var script := PushData(key) + [0xac];
    assert |key| > 10000 ==> |script| > 10000;
    assert |key| <= 520 ==> |script| <= 10000;
    hide PushData, Run, CSignatureChecker.Good, TrueOnTop, Executed, Without, At;
    if |script| <= 10000 {
      var m := Machine([sig], [], [], 0, 0);
      AtStart(script);
      RunPush(m, script, 0, key, [0xac], fStrict, checker);
      if |key| <= 520 {
        assert [sig] + [key] == [] + [sig, key];
        RunCheckSig(m.(stack := [sig] + [key]), [], sig, key, script, |PushData(key)|, fStrict, checker);
        WithoutPush(key, sig, [0xac]);
        WithoutOpAlone(0xac, sig);
      }
    }
  }

  lemma WithoutOpAlone(opcode: byte, c: valtype)
    requires opcode > 0x4e
    ensures Without([opcode], PushData(c)) == [opcode]
  {
    hide PushData, Without;
    WithoutOp(opcode, c, []);
    WithoutNothing(c);
    assert [opcode] + [] == [opcode];
  }

  // ---------- pay to the hash of a key ----------

  lemma RunDup(m: Machine, base: seq<valtype>, x: valtype, script: seq<byte>, pc: nat, rest: seq<byte>, fStrict: bool, checker: CSignatureChecker)
    requires At(script, pc, [0x76] + rest) && m.nBeginCodeHash <= |script| && m.vfExec == []
    requires m.stack == base + [x] && m.nOpCount <= 200 && |m.stack| + |m.altstack| < 1000
    ensures At(script, pc + 1, rest)
    ensures Run(m, script, pc, fStrict, checker) == Run(m.(stack := base + [x, x], nOpCount := m.nOpCount + 1), script, pc + 1, fStrict, checker)
  {
    hide PlainOp, BranchOp, SignatureEffect, Run, At;
    EffectsOnTwo(base, m.altstack, x, x);
    RunOp(m, script, pc, 0x76, rest, fStrict, checker);
  }

  lemma RunHash(m: Machine, base: seq<valtype>, x: valtype, script: seq<byte>, pc: nat, rest: seq<byte>, fStrict: bool, checker: CSignatureChecker)
    requires At(script, pc, [0xa9] + rest) && m.nBeginCodeHash <= |script| && m.vfExec == []
    requires m.stack == base + [x] && m.nOpCount <= 200 && |m.stack| + |m.altstack| <= 1000
    ensures At(script, pc + 1, rest)
    ensures Run(m, script, pc, fStrict, checker) ==
            Run(m.(stack := base + [SizeBytes(checker.hash(0xa9, x), 20)], nOpCount := m.nOpCount + 1), script, pc + 1, fStrict, checker)
  {
    hide PlainOp, BranchOp, SignatureEffect, Run, At, SizeBytes;
    TopOfSum(base, [x], 1);
    RunOp(m, script, pc, 0xa9, rest, fStrict, checker);
  }

  lemma RunEqual(m: Machine, base: seq<valtype>, x: valtype, y: valtype, script: seq<byte>, pc: nat, rest: seq<byte>, fStrict: bool, checker: CSignatureChecker)
    requires At(script, pc, [0x87] + rest) && m.nBeginCodeHash <= |script| && m.vfExec == []
    requires m.stack == base + [x, y] && m.nOpCount <= 200 && |m.stack| + |m.altstack| <= 1000
    ensures At(script, pc + 1, rest)
    ensures Run(m, script, pc, fStrict, checker) ==
            Run(m.(stack := base + [if x == y then vchTrue else vchFalse], nOpCount := m.nOpCount + 1), script, pc + 1, fStrict, checker)
  {
    hide PlainOp, BranchOp, SignatureEffect, Run, At;
    EffectsOfEqual(base, m.altstack, x, y);
    RunOp(m, script, pc, 0x87, rest, fStrict, checker);
  }

  lemma RunEqualVerify(m: Machine, base: seq<valtype>, x: valtype, y: valtype, script: seq<byte>, pc: nat, rest: seq<byte>, fStrict: bool, checker: CSignatureChecker)
    requires At(script, pc, [0x88] + rest) && m.nBeginCodeHash <= |script| && m.vfExec == []
    requires m.stack == base + [x, y] && m.nOpCount <= 200 && |m.stack| + |m.altstack| <= 1000
    ensures At(script, pc + 1, rest)
    ensures Run(m, script, pc, fStrict, checker) ==
            if x == y then Run(m.(stack := base, nOpCount := m.nOpCount + 1), script, pc + 1, fStrict, checker) else Stop
  {
    hide PlainOp, BranchOp, SignatureEffect, Run, At;
    EffectsOfEqual(base, m.altstack, x, y);
    RunOp(m, script, pc, 0x88, rest, fStrict, checker);
  }

  /** Two pushed strings spend an output that pays to the hash of a key if and only if the second
      is a key with that hash and the first a signature that is good for it. */
  lemma PayToPubKeyHash(sig: valtype, key: valtype, h: valtype, fP2SH: bool, fStrict: bool, checker: CSignatureChecker)
    ensures
      var signed := [0x76, 0xa9] + (if h == sig then [] else PushData(h)) + [0x88, 0xac];
      Verified(PushData(sig) + PushData(key), [0x76, 0xa9] + PushData(h) + [0x88, 0xac], fP2SH, fStrict, checker) <==>
        |sig| <= 520 && |key| <= 520 && SizeBytes(checker.hash(0xa9, key), 20) == h && checker.Good(fStrict, sig, key, signed)
  {
    var script := [0x76, 0xa9] + PushData(h) + [0x88, 0xac];
    var ks := [sig, key];
    PushesOne(key);
    assert Pushes(ks) == PushData(sig) + PushData(key) by { assert ks[1..] == [key]; }
    EvalPushes([], ks, fStrict, checker);
    assert [] + ks == ks;
    assert |sig| <= 520 && |key| <= 520 ==> |Pushes(ks)| <= 10000;
    assert !IsPayToScriptHash(script);
    assert Small(ks) <==> |sig| <= 520 && |key| <= 520;
    hide PushData, Pushes, SizeBytes, Small, CSignatureChecker.Good, IsPayToScriptHash, Eval;
    if |sig| <= 520 && |key| <= 520 {
      EvalPubKeyHash(sig, key, h, fStrict, checker);
    }
  }

  lemma EvalPubKeyHash(sig: valtype, key: valtype, h: valtype, fStrict: bool, checker: CSignatureChecker)
    requires |sig| <= 520
    ensures
      var signed := [0x76, 0xa9] + (if h == sig then [] else PushData(h)) + [0x88, 0xac];
      var r := Eval([sig, key], [0x76, 0xa9] + PushData(h) + [0x88, 0xac], fStrict, checker);
      r.Go? && TrueOnTop(r.m.stack) <==> SizeBytes(checker.hash(0xa9, key), 20) == h && checker.Good(fStrict, sig, key, signed)
  {
    var script := [0x76, 0xa9] + PushData(h) + [0x88, 0xac];
    assert |h| == 20 ==> |script| <= 10000;
    hide PushData, Run, CSignatureChecker.Good, TrueOnTop, Without, SizeBytes, At;
    var toCheck := PushData(h) + [0x88, 0xac];
    assert script == [0x76] + ([0xa9] + toCheck);
    if |script| <= 10000 {
      var m := Machine([sig, key], [], [], 0, 0);
      AtStart(script);
      assert m.stack == [sig] + [key];
      RunDup(m, [sig], key, script, 0, [0xa9] + toCheck, fStrict, checker);
      var m1 := m.(stack := [sig] + [key, key], nOpCount := 1);
      assert m1.stack == [sig, key] + [key];
      RunHash(m1, [sig, key], key, script, 1, toCheck, fStrict, checker);
      var x := SizeBytes(checker.hash(0xa9, key), 20);
      RunHashCheck(Machine([sig, key] + [x], [], [], 2, 0), sig, key, x, h, script, 2, fStrict, checker);
      if x == h { SignedForHash(sig, h); }
    }
  }

  lemma RunHashCheck(m: Machine, sig: valtype, key: valtype, x: valtype, h: valtype, script: seq<byte>, pc: nat, fStrict: bool, checker: CSignatureChecker)
    requires |script| <= 10000 && At(script, pc, PushData(h) + [0x88, 0xac]) && |x| == 20
    requires m == Machine([sig, key] + [x], [], [], 2, 0)
    ensures
      var r := Run(m, script, pc, fStrict, checker);
      r.Go? && TrueOnTop(r.m.stack) <==> x == h && checker.Good(fStrict, sig, key, Without(script, PushData(sig)))
  {
    hide PushData, Run, CSignatureChecker.Good, TrueOnTop, Without, At;
    RunPush(m, script, pc, h, [0x88, 0xac], fStrict, checker);
    if |h| <= 520 {
      var m1 := Machine([sig, key] + [x, h], [], [], 2, 0);
      assert m.stack + [h] == m1.stack && [0x88, 0xac] == [0x88] + [0xac];
      RunEqualVerify(m1, [sig, key], x, h, script, pc + |PushData(h)|, [0xac], fStrict, checker);
      if x == h {
        assert [sig, key] == [] + [sig, key];
        RunCheckSig(Machine([sig, key], [], [], 3, 0), [], sig, key, script, pc + |PushData(h)| + 1, fStrict, checker);
      }
    }
  }

  lemma SignedForHash(sig: valtype, h: valtype)
    requires |sig| <= 520 && |h| <= 520
    ensures Without([0x76, 0xa9] + PushData(h) + [0x88, 0xac], PushData(sig)) == [0x76, 0xa9] + (if h == sig then [] else PushData(h)) + [0x88, 0xac]
  {
    hide PushData, Without;
    var s2 := PushData(h) + [0x88, 0xac];
    assert [0x76, 0xa9] + PushData(h) + [0x88, 0xac] == [0x76] + ([0xa9] + s2);
    WithoutOp(0x76, sig, [0xa9] + s2);
    WithoutOp(0xa9, sig, s2);
    WithoutPush(h, sig, [0x88, 0xac]);
    assert [0x88, 0xac] == [0x88] + [0xac];
    WithoutOp(0x88, sig, [0xac]);
    WithoutOpAlone(0xac, sig);
  }

  // ---------- pay to several keys ----------

  function MultisigScript(nSigs: nat, keys: seq<valtype>, nKeys: nat): seq<byte>
    requires nSigs <= 16 && nKeys <= 16
  {
    [0x50 + nSigs] + Pushes(keys) + [0x50 + nKeys, 0xae]
  }

  lemma SmallNumber(n: nat)
    requires n <= 200
    ensures CastToBigNum(EncodeNum(n)) == Num(n) && |EncodeNum(n)| <= 520
  {
    OperandFits(n);
    NumRoundTrip(n);
    hide EncodeNum, DecodeNum;
  }

  /** The stack that OP_CHECKMULTISIG meets. */
  function MultisigStack(items: seq<valtype>, nSigs: nat, keys: seq<valtype>): seq<valtype> {
    items + [EncodeNum(nSigs)] + keys + [EncodeNum(|keys|)]
  }

  /** The counts are accepted if and only if there are at most 20 keys, counted as operations,
      no more signatures than keys, and all of them on the stack above one more entry. */
  lemma CountsOnStack(items: seq<valtype>, nSigs: nat, keys: seq<valtype>, nOpCount: nat)
    requires nSigs <= 200 && |keys| <= 200
    ensures ReadCounts(MultisigStack(items, nSigs, keys), nOpCount) ==
            if |keys| <= 20 && nOpCount + |keys| <= 201 && nSigs <= |keys| && |items| > nSigs then Counts(|keys|, nSigs) else NoCounts
  {
    SmallNumber(nSigs);
    SmallNumber(|keys|);
    hide EncodeNum, CastToBigNum, DecodeNum;
    var stack := MultisigStack(items, nSigs, keys);
    assert Top(stack, 1) == EncodeNum(|keys|) && Top(stack, 2 + |keys|) == EncodeNum(nSigs);
  }

  lemma ColumnsOfStack(items: seq<valtype>, nSigs: nat, keys: seq<valtype>)
    requires nSigs < |items|
    ensures Column(MultisigStack(items, nSigs, keys), 2, |keys|) == Reversed(keys)
    ensures Column(MultisigStack(items, nSigs, keys), 3 + |keys|, nSigs) == Reversed(items[|items| - nSigs..])
    ensures Drop(MultisigStack(items, nSigs, keys), 3 + |keys| + nSigs) == items[..|items| - nSigs - 1]
  {
    hide EncodeNum;
  }

  lemma {:induction false} NotAmongTwice(keys: seq<valtype>, sigs: seq<valtype>, c: valtype)
    ensures NotAmong(NotAmong(keys, sigs), [c]) == NotAmong(keys, sigs + [c])
  {
    if keys != [] {
      NotAmongTwice(keys[1..], sigs, c);
      var rest := NotAmong(keys[1..], sigs);
      assert [] + rest == rest && ([keys[0]] + rest)[1..] == rest;
    }
  }

  lemma {:induction false} NotAmongNone(keys: seq<valtype>)
    ensures NotAmong(keys, []) == keys
  {
    if keys != [] { NotAmongNone(keys[1..]); }
  }

  lemma {:induction false} NotAmongIsSmall(keys: seq<valtype>, sigs: seq<valtype>)
    requires Small(keys)
    ensures Small(NotAmong(keys, sigs))
  {
    if keys != [] { NotAmongIsSmall(keys[1..], sigs); }
  }

  lemma {:induction false} NotAmongSame(keys: seq<valtype>, sigs: seq<valtype>, others: seq<valtype>)
    requires forall x :: x in sigs <==> x in others
    ensures NotAmong(keys, sigs) == NotAmong(keys, others)
  {
    if keys != [] { NotAmongSame(keys[1..], sigs, others); }
  }

  lemma WithoutInMultisig(nSigs: nat, keys: seq<valtype>, nKeys: nat, c: valtype)
    requires nSigs <= 16 && nKeys <= 16 && Small(keys) && |c| <= 520
    ensures Without(MultisigScript(nSigs, keys, nKeys), PushData(c)) == MultisigScript(nSigs, NotAmong(keys, [c]), nKeys)
  {
    hide PushData, Without, Pushes, NotAmong;
    var tail := [0x50 + nKeys, 0xae];
    assert MultisigScript(nSigs, keys, nKeys) == [0x50 + nSigs] + (Pushes(keys) + tail);
    WithoutOp(0x50 + nSigs, c, Pushes(keys) + tail);
    WithoutPushes(keys, c, tail);
    assert tail == [0x50 + nKeys] + [0xae];
    WithoutOp(0x50 + nKeys, c, [0xae]);
    WithoutOpAlone(0xae, c);
  }

  lemma {:induction false} WithoutAllInMultisig(nSigs: nat, keys: seq<valtype>, nKeys: nat, stack: seq<valtype>, isig: nat, k: nat)
    requires nSigs <= 16 && nKeys <= 16 && Small(keys) && Small(stack) && isig >= 1 && isig + k <= |stack| + 1
    ensures WithoutAll(MultisigScript(nSigs, keys, nKeys), stack, isig, k) == MultisigScript(nSigs, NotAmong(keys, Column(stack, isig, k)), nKeys)
  {
    hide PushData, Without, MultisigScript, NotAmong;
    if k == 0 {
      NotAmongNone(keys);
    } else {
      WithoutAllInMultisig(nSigs, keys, nKeys, stack, isig, k - 1);
      var c := Top(stack, isig + k - 1);
      NotAmongIsSmall(keys, Column(stack, isig, k - 1));
      WithoutInMultisig(nSigs, NotAmong(keys, Column(stack, isig, k - 1)), nKeys, c);
      NotAmongTwice(keys, Column(stack, isig, k - 1), c);
      assert Column(stack, isig, k) == Column(stack, isig, k - 1) + [c];
    }
  }

  lemma SmallStack(items: seq<valtype>, nSigs: nat, keys: seq<valtype>)
    requires 1 <= nSigs <= 16 && 1 <= |keys| <= 16 && Small(items) && Small(keys)
    ensures Small(MultisigStack(items, nSigs, keys))
  {
    SmallNumber(nSigs);
    SmallNumber(|keys|);
    hide EncodeNum, DecodeNum;
  }

  /** The script that the signatures sign: without the keys that are signatures, too. */
  function SignedByAll(nSigs: nat, keys: seq<valtype>, sigs: seq<valtype>): seq<byte>
    requires nSigs <= 16 && |keys| <= 16
  {
    MultisigScript(nSigs, NotAmong(keys, sigs), |keys|)
  }

  lemma MultisigVerdict(m: Machine, items: seq<valtype>, nSigs: nat, keys: seq<valtype>, fStrict: bool, checker: CSignatureChecker)
    requires 1 <= nSigs <= |keys| <= 16 && Small(items) && Small(keys)
    requires m.stack == MultisigStack(items, nSigs, keys) && m.nOpCount <= 180
    ensures
      var r := CheckMultisigEffect(false, m, MultisigScript(nSigs, keys, |keys|), fStrict, checker);
      if |items| <= nSigs then r.Stop?
      else
        var sigs := items[|items| - nSigs..];
        var b := checker.Assignable(fStrict, sigs, keys, SignedByAll(nSigs, keys, sigs));
        r == Go(m.(nOpCount := m.nOpCount + |keys|, stack := items[..|items| - nSigs - 1] + [if b then vchTrue else vchFalse]))
  {
    hide WithoutAll, MultisigScript, MultisigStack, ReadCounts, Column, Reversed, NotAmong, CSignatureChecker.Assignable, Small;
    CountsOnStack(items, nSigs, keys, m.nOpCount);
    if |items| > nSigs {
      ColumnsOfStack(items, nSigs, keys);
      SmallStack(items, nSigs, keys);
      WithoutAllInMultisig(nSigs, keys, |keys|, m.stack, 3 + |keys|, nSigs);
      var sigs := items[|items| - nSigs..];
      assert forall x :: x in sigs <==> x in Reversed(sigs) by { InReversed(sigs); }
      NotAmongSame(keys, Reversed(sigs), sigs);
      checker.AssignableReversed(fStrict, sigs, keys, SignedByAll(nSigs, keys, sigs));
    }
  }

  lemma InReversed(s: seq<valtype>)
    ensures forall x :: x in s <==> x in Reversed(s)
  {
    forall x | x in s ensures x in Reversed(s) {
      var i :| 0 <= i < |s| && s[i] == x;
      assert Reversed(s)[|s| - 1 - i] == x;
    }
  }

  lemma ExecuteMultisig(m: Machine, script: seq<byte>, next: nat, fStrict: bool, checker: CSignatureChecker)
    requires m.nBeginCodeHash == 0 && next <= |script|
    ensures Executed(0xae, m, script, next, true, fStrict, checker) == CheckMultisigEffect(false, m, script, fStrict, checker)
  {
    assert script[0..] == script;
    hide CheckMultisigEffect, PlainOp, BranchOp;
  }

  /** What a run of a multisignature script needs. */
  ghost predicate SignedByMost(items: seq<valtype>, nSigs: nat, keys: seq<valtype>, fStrict: bool, checker: CSignatureChecker)
    requires nSigs <= 16 && |keys| <= 16
  {
    |items| > nSigs &&
    var sigs := items[|items| - nSigs..];
    checker.Assignable(fStrict, sigs, keys, SignedByAll(nSigs, keys, sigs))
  }

  lemma EvalMultisig(items: seq<valtype>, nSigs: nat, keys: seq<valtype>, fStrict: bool, checker: CSignatureChecker)
    requires 1 <= nSigs <= |keys| <= 16 && Small(items) && |items| <= 1000
    ensures
      var r := Eval(items, MultisigScript(nSigs, keys, |keys|), fStrict, checker);
      r.Go? && TrueOnTop(r.m.stack) <==>
        Small(keys) && |items| + |keys| + 2 <= 1000 && SignedByMost(items, nSigs, keys, fStrict, checker)
  {
    var script := MultisigScript(nSigs, keys, |keys|);
    if Small(keys) { PushesAreShort(keys); }
    hide Pushes, Run, TrueOnTop, EncodeNum, Small, SignedByMost, At;
    if |script| <= 10000 {
      AtStart(script);
      var toKeys := Pushes(keys) + [0x50 + |keys|, 0xae];
      assert script == [0x50 + nSigs] + toKeys;
      RunNumber(Machine(items, [], [], 0, 0), script, 0, nSigs, toKeys, fStrict, checker);
      if |items| < 1000 {
        RunKeys(Machine(items + [EncodeNum(nSigs)], [], [], 0, 0), items, nSigs, keys, script, 1, fStrict, checker);
      }
    }
  }

  lemma RunKeys(m: Machine, items: seq<valtype>, nSigs: nat, keys: seq<valtype>, script: seq<byte>, pc: nat, fStrict: bool, checker: CSignatureChecker)
    requires 1 <= nSigs <= |keys| <= 16 && Small(items) && |script| <= 10000
    requires m == Machine(items + [EncodeNum(nSigs)], [], [], 0, 0) && |m.stack| <= 1000
    requires script == MultisigScript(nSigs, keys, |keys|) && At(script, pc, Pushes(keys) + [0x50 + |keys|, 0xae])
    ensures
      var r := Run(m, script, pc, fStrict, checker);
      r.Go? && TrueOnTop(r.m.stack) <==>
        Small(keys) && |items| + |keys| + 2 <= 1000 && SignedByMost(items, nSigs, keys, fStrict, checker)
  {
    hide Pushes, Run, TrueOnTop, EncodeNum, Small, SignedByMost, At, MultisigScript;
    RunPushes(m, script, pc, keys, [0x50 + |keys|, 0xae], fStrict, checker);
    if Small(keys) && |items| + 1 + |keys| <= 1000 {
      RunCountAndCheck(m.(stack := m.stack + keys), items, nSigs, keys, script, pc + |Pushes(keys)|, fStrict, checker);
    }
  }

  lemma RunCountAndCheck(m: Machine, items: seq<valtype>, nSigs: nat, keys: seq<valtype>, script: seq<byte>, pc: nat, fStrict: bool, checker: CSignatureChecker)
    requires 1 <= nSigs <= |keys| <= 16 && Small(items) && Small(keys)
    requires m == Machine(items + [EncodeNum(nSigs)] + keys, [], [], 0, 0) && |m.stack| <= 1000
    requires script == MultisigScript(nSigs, keys, |keys|) && At(script, pc, [0x50 + |keys|, 0xae])
    ensures
      var r := Run(m, script, pc, fStrict, checker);
      r.Go? && TrueOnTop(r.m.stack) <==> |items| + |keys| + 2 <= 1000 && SignedByMost(items, nSigs, keys, fStrict, checker)
  {
    hide Pushes, Run, TrueOnTop, EncodeNum, Small, SignedByMost, At;
    assert [0x50 + |keys|, 0xae] == [0x50 + |keys|] + [0xae];
    RunNumber(m, script, pc, |keys|, [0xae], fStrict, checker);
    if |items| + |keys| + 2 <= 1000 {
      RunMultisig(m.(stack := m.stack + [EncodeNum(|keys|)]), items, nSigs, keys, script, pc + 1, fStrict, checker);
    }
  }

  /** Enough entries leave the verdict on those below, and fewer end the script. */
  lemma MultisigLeaves(m: Machine, items: seq<valtype>, nSigs: nat, keys: seq<valtype>, fStrict: bool, checker: CSignatureChecker)
    returns (rest: seq<valtype>)
    requires 1 <= nSigs <= |keys| <= 16 && Small(items) && Small(keys)
    requires m.stack == MultisigStack(items, nSigs, keys) && m.nOpCount <= 180
    ensures |rest| < |m.stack|
    ensures
      var r := CheckMultisigEffect(false, m, MultisigScript(nSigs, keys, |keys|), fStrict, checker);
      var b := SignedByMost(items, nSigs, keys, fStrict, checker);
      if |items| <= nSigs then r.Stop? && !b
      else r == Go(m.(nOpCount := m.nOpCount + |keys|, stack := rest + [if b then vchTrue else vchFalse]))
  {
    hide CheckMultisigEffect, SignedByAll, MultisigScript, CSignatureChecker.Assignable, Small;
    rest := if |items| > nSigs then items[..|items| - nSigs - 1] else [];
    MultisigVerdict(m, items, nSigs, keys, fStrict, checker);
  }

  lemma RunMultisig(m: Machine, items: seq<valtype>, nSigs: nat, keys: seq<valtype>, script: seq<byte>, pc: nat, fStrict: bool, checker: CSignatureChecker)
    requires 1 <= nSigs <= |keys| <= 16 && Small(items) && Small(keys)
    requires m == Machine(MultisigStack(items, nSigs, keys), [], [], 0, 0) && |m.stack| <= 1000
    requires script == MultisigScript(nSigs, keys, |keys|) && At(script, pc, [0xae])
    ensures
      var r := Run(m, script, pc, fStrict, checker);
      r.Go? && TrueOnTop(r.m.stack) <==> SignedByMost(items, nSigs, keys, fStrict, checker)
  {
    hide Run, TrueOnTop, Executed, Small, SignedByMost, CheckMultisigEffect, MultisigScript, MultisigStack, At;
    assert [0xae] == [0xae] + [];
    RunOp(m, script, pc, 0xae, [], fStrict, checker);
    var m1 := m.(nOpCount := 1);
    ExecuteMultisig(m1, script, pc + 1, fStrict, checker);
    var rest := MultisigLeaves(m1, items, nSigs, keys, fStrict, checker);
    if |items| > nSigs {
      var b := SignedByMost(items, nSigs, keys, fStrict, checker);
      EndsWithVerdict(m1.(nOpCount := 1 + |keys|, stack := rest + [if b then vchTrue else vchFalse]), rest, b, script, pc + 1, fStrict, checker);
    }
  }

  lemma {:induction false} PushesAreShort(bs: seq<valtype>)
    requires Small(bs)
    ensures |Pushes(bs)| <= 523 * |bs|
  {
    if bs != [] { PushesAreShort(bs[1..]); }
  }

  lemma NoScriptHash(script: seq<byte>)
    requires script != [] && script[0] != 0xa9
    ensures !IsPayToScriptHash(script)
  {
  }

  /** Pushes spend an output that pays to m of n keys if and only if there are more than m of
      them and the last m are signatures that can be assigned to keys in order. */
  lemma PayToMultisig(items: seq<valtype>, nSigs: nat, keys: seq<valtype>, fP2SH: bool, fStrict: bool, checker: CSignatureChecker)
    requires 1 <= nSigs <= |keys| <= 16
    ensures
      Verified(Pushes(items), [0x50 + nSigs] + Pushes(keys) + [0x50 + |keys|, 0xae], fP2SH, fStrict, checker) <==>
        && |Pushes(items)| <= 10000 && |items| + |keys| + 2 <= 1000 && Small(items) && Small(keys)
        && |items| > nSigs
        && var sigs := items[|items| - nSigs..];
           var signed := [0x50 + nSigs] + Pushes(NotAmong(keys, sigs)) + [0x50 + |keys|, 0xae];
           checker.Assignable(fStrict, sigs, keys, signed)
  {
    hide Pushes, NotAmong, Small, CSignatureChecker.Assignable, IsPayToScriptHash, Eval, TrueOnTop, IsPushOnlyFrom;
    EvalPushes([], items, fStrict, checker);
    assert [] + items == items;
    NoScriptHash(MultisigScript(nSigs, keys, |keys|));
    if Small(items) && |items| <= 1000 {
      EvalMultisig(items, nSigs, keys, fStrict, checker);
    }
  }

  // ---------- pay to the hash of a script ----------

  lemma {:induction false} PushesOnly(script: seq<byte>, pc: nat, bs: seq<valtype>)
    requires At(script, pc, Pushes(bs)) && Small(bs)
    ensures IsPushOnlyFrom(script, pc)
    decreases |bs|
  {
    hide PushData, GetOp;
    if bs != [] {
      ReadPush(script, pc, bs[0], Pushes(bs[1..]));
      PushesOnly(script, pc + |PushData(bs[0])|, bs[1..]);
    }
  }

  lemma PushOfTwenty(h: valtype)
    requires |h| == 20
    ensures PushData(h) == [0x14] + h
  {
  }

  /** The public script compares the hash of the last push. */
  lemma EvalScriptHash(items: seq<valtype>, redeem: valtype, h: valtype, fStrict: bool, checker: CSignatureChecker)
    requires |h| == 20 && |items| <= 999
    ensures
      var r := Eval(items + [redeem], [0xa9, 0x14] + h + [0x87], fStrict, checker);
      r.Go? && TrueOnTop(r.m.stack) <==> |items| <= 998 && SizeBytes(checker.hash(0xa9, redeem), 20) == h
  {
    var script := [0xa9, 0x14] + h + [0x87];
    PushOfTwenty(h);
    hide PushData, Run, TrueOnTop, SizeBytes, At;
    var m := Machine(items + [redeem], [], [], 0, 0);
    var toHash := PushData(h) + [0x87];
    AtStart(script);
    assert script == [0xa9] + toHash;
    RunHash(m, items, redeem, script, 0, toHash, fStrict, checker);
    var x := SizeBytes(checker.hash(0xa9, redeem), 20);
    RunPush(Machine(items + [x], [], [], 1, 0), script, 1, h, [0x87], fStrict, checker);
    if |items| <= 998 {
      assert items + [x] + [h] == items + [x, h] && [0x87] == [0x87] + [];
      RunEqual(Machine(items + [x, h], [], [], 1, 0), items, x, h, script, 22, [], fStrict, checker);
      EndsWithVerdict(Machine(items + [if x == h then vchTrue else vchFalse], [], [], 2, 0), items, x == h, script, 23, fStrict, checker);
    }
  }

  /** The signature script of such a spend. */
  lemma EvalHashSpend(items: seq<valtype>, redeem: valtype, fStrict: bool, checker: CSignatureChecker)
    ensures
      var scriptSig := Pushes(items) + PushData(redeem);
      var fits := |scriptSig| <= 10000 && Small(items) && |redeem| <= 520 && |items| <= 999;
      && Eval([], scriptSig, fStrict, checker) == (if fits then Go(Machine(items + [redeem], [], [], 0, 0)) else Stop)
      && (fits ==> IsPushOnlyFrom(scriptSig, 0))
  {
    var all := items + [redeem];
    assert Small(all) <==> Small(items) && |redeem| <= 520 by {
      assert all[|items|] == redeem && forall i | 0 <= i < |items| :: all[i] == items[i];
    }
    PushesOfSum(items, [redeem]);
    PushesOne(redeem);
    hide Pushes, PushData, Small, Eval, IsPushOnlyFrom;
    EvalPushes([], all, fStrict, checker);
    assert [] + all == all;
    if Small(all) {
      AtStart(Pushes(all));
      PushesOnly(Pushes(all), 0, all);
    }
  }

  /** Spending an output that pays to a script's hash means pushing that script last and, below
      it, what spends an output with that script itself. Without the rule for such outputs the
      hash alone decides. */
  lemma PayToScriptHash(items: seq<valtype>, redeem: valtype, h: valtype, fStrict: bool, checker: CSignatureChecker)
    requires |h| == 20
    ensures
      var script := [0xa9, 0x14] + h + [0x87];
      var scriptSig := Pushes(items) + PushData(redeem);
      var hashed := |scriptSig| <= 10000 && Small(items) && |redeem| <= 520 && |items| <= 998 && SizeBytes(checker.hash(0xa9, redeem), 20) == h;
      && (Verified(scriptSig, script, true, fStrict, checker) <==> hashed && Verified(Pushes(items), redeem, false, fStrict, checker))
      && (Verified(scriptSig, script, false, fStrict, checker) <==> hashed)
  {
    hide Pushes, PushData, Small, SizeBytes, Eval, TrueOnTop, IsPushOnlyFrom;
    var script := [0xa9, 0x14] + h + [0x87];
    assert IsPayToScriptHash(script);
    hide IsPayToScriptHash;
    EvalHashSpend(items, redeem, fStrict, checker);
    EvalPushes([], items, fStrict, checker);
    assert |Pushes(items)| <= |Pushes(items) + PushData(redeem)|;
    assert [] + items == items;
    if |items| <= 999 {
      EvalScriptHash(items, redeem, h, fStrict, checker);
      assert Drop(items + [redeem], 1) == items;
    }
  }

  /** So an output that pays to the hash of an m-of-n script is spent by that script pushed above
      the m signatures. */
  lemma PayToMultisigHash(items: seq<valtype>, nSigs: nat, keys: seq<valtype>, h: valtype, fStrict: bool, checker: CSignatureChecker)
    requires 1 <= nSigs <= |keys| <= 16 && |h| == 20
    ensures
      var redeem := [0x50 + nSigs] + Pushes(keys) + [0x50 + |keys|, 0xae];
      var scriptSig := Pushes(items) + PushData(redeem);
      Verified(scriptSig, [0xa9, 0x14] + h + [0x87], true, fStrict, checker) <==>
        && |scriptSig| <= 10000 && |items| + |keys| + 2 <= 1000 && Small(items) && Small(keys) && |redeem| <= 520
        && SizeBytes(checker.hash(0xa9, redeem), 20) == h
        && |items| > nSigs
        && var sigs := items[|items| - nSigs..];
           var signed := [0x50 + nSigs] + Pushes(NotAmong(keys, sigs)) + [0x50 + |keys|, 0xae];
           checker.Assignable(fStrict, sigs, keys, signed)
  {
    hide Pushes, PushData, Small, SizeBytes, NotAmong, Verified, CSignatureChecker.Assignable;
    PayToScriptHash(items, [0x50 + nSigs] + Pushes(keys) + [0x50 + |keys|, 0xae], h, fStrict, checker);
    PayToMultisig(items, nSigs, keys, false, fStrict, checker);
  }

  // ---------- what the templates cost ----------

  lemma {:induction false} SigOpsOfPushes(script: seq<byte>, pc: nat, bs: seq<valtype>, rest: seq<byte>, last: nat, fAccurate: bool) returns (k: nat)
    requires At(script, pc, Pushes(bs) + rest) && Small(bs)
    ensures At(script, pc + |Pushes(bs)|, rest)
    ensures SigOpsFrom(script, pc, last, fAccurate) == SigOpsFrom(script, pc + |Pushes(bs)|, k, fAccurate)
    decreases |bs|
  {
    hide PushData, At, GetOp;
    if bs == [] {
      k := last;
      assert [] + rest == rest;
    } else {
      var b := bs[0];
      assert Pushes(bs) + rest == PushData(b) + (Pushes(bs[1..]) + rest);
      ReadPush(script, pc, b, Pushes(bs[1..]) + rest);
      k := SigOpsOfPushes(script, pc + |PushData(b)|, bs[1..], rest, PushData(b)[0], fAccurate);
    }
  }

  lemma SigOpsOfOp(script: seq<byte>, pc: nat, opcode: byte, rest: seq<byte>, last: nat, fAccurate: bool)
    requires At(script, pc, [opcode] + rest) && opcode > 0x4e
    ensures At(script, pc + 1, rest)
    ensures SigOpsFrom(script, pc, last, fAccurate) == SigOpsOf(opcode, last, fAccurate) + SigOpsFrom(script, pc + 1, opcode, fAccurate)
  {
    hide At, GetOp, SigOpsOf;
    ReadOp(script, pc, opcode, rest);
  }

  lemma SigOpsOfNothing(script: seq<byte>, pc: nat, last: nat, fAccurate: bool)
    requires At(script, pc, [])
    ensures SigOpsFrom(script, pc, last, fAccurate) == 0
  {
  }

  lemma SigOpsOfLast(script: seq<byte>, pc: nat, opcode: byte, last: nat, fAccurate: bool)
    requires At(script, pc, [opcode]) && opcode > 0x4e
    ensures SigOpsFrom(script, pc, last, fAccurate) == SigOpsOf(opcode, last, fAccurate)
  {
    hide At, SigOpsOf;
    assert [opcode] == [opcode] + [];
    SigOpsOfOp(script, pc, opcode, [], last, fAccurate);
    SigOpsOfNothing(script, pc + 1, opcode, fAccurate);
  }

  /** Paying to a key or its hash counts for one signature, and to the hash of a script for
      none by itself. */
  lemma StandardSigOps(key: valtype, h: valtype, fAccurate: bool)
    requires |key| <= 520 && |h| == 20
    ensures SigOps(PushData(key) + [0xac], fAccurate) == 1
    ensures SigOps([0x76, 0xa9] + PushData(h) + [0x88, 0xac], fAccurate) == 1
    ensures SigOps([0xa9] + PushData(h) + [0x87], fAccurate) == 0
  {
    hide PushData, At, SigOpsFrom;
    PushesOne(key);
    PushesOne(h);
    hide Pushes;
    var toKey := PushData(key) + [0xac];
    AtStart(toKey);
    var k := SigOpsOfPushes(toKey, 0, [key], [0xac], OP_INVALIDOPCODE, fAccurate);
    SigOpsOfLast(toKey, |PushData(key)|, 0xac, k, fAccurate);
    SigOpsOfKeyHash(h, fAccurate);
    SigOpsOfScriptHash(h, fAccurate);
  }

  lemma SigOpsOfKeyHash(h: valtype, fAccurate: bool)
    requires |h| == 20
    ensures SigOps([0x76, 0xa9] + PushData(h) + [0x88, 0xac], fAccurate) == 1
  {
    hide PushData, At, SigOpsFrom;
    PushesOne(h);
    hide Pushes;
    var script := [0x76, 0xa9] + PushData(h) + [0x88, 0xac];
    var toCheck := PushData(h) + [0x88, 0xac];
    AtStart(script);
    assert script == [0x76] + ([0xa9] + toCheck);
    SigOpsOfOp(script, 0, 0x76, [0xa9] + toCheck, OP_INVALIDOPCODE, fAccurate);
    SigOpsOfOp(script, 1, 0xa9, toCheck, 0x76, fAccurate);
    var k := SigOpsOfPushes(script, 2, [h], [0x88, 0xac], 0xa9, fAccurate);
    assert [0x88, 0xac] == [0x88] + [0xac];
    SigOpsOfOp(script, 2 + |PushData(h)|, 0x88, [0xac], k, fAccurate);
    SigOpsOfLast(script, 3 + |PushData(h)|, 0xac, 0x88, fAccurate);
  }

  lemma SigOpsOfScriptHash(h: valtype, fAccurate: bool)
    requires |h| == 20
    ensures SigOps([0xa9] + PushData(h) + [0x87], fAccurate) == 0
  {
    hide PushData, At, SigOpsFrom;
    PushesOne(h);
    hide Pushes;
    var script := [0xa9] + PushData(h) + [0x87];
    AtStart(script);
    assert script == [0xa9] + (PushData(h) + [0x87]);
    SigOpsOfOp(script, 0, 0xa9, PushData(h) + [0x87], OP_INVALIDOPCODE, fAccurate);
    var k := SigOpsOfPushes(script, 1, [h], [0x87], 0xa9, fAccurate);
    SigOpsOfLast(script, 1 + |PushData(h)|, 0x87, k, fAccurate);
  }

  /** Paying to m of n keys counts for n when counted accurately and for 20 when not. */
  lemma MultisigSigOps(nSigs: nat, keys: seq<valtype>, fAccurate: bool)
    requires 1 <= nSigs <= |keys| <= 16 && Small(keys)
    ensures SigOps([0x50 + nSigs] + Pushes(keys) + [0x50 + |keys|, 0xae], fAccurate) == if fAccurate then |keys| else 20
  {
    hide Pushes, At, SigOpsFrom;
    var script := [0x50 + nSigs] + Pushes(keys) + [0x50 + |keys|, 0xae];
    AtStart(script);
    assert script == [0x50 + nSigs] + (Pushes(keys) + [0x50 + |keys|, 0xae]);
    SigOpsOfOp(script, 0, 0x50 + nSigs, Pushes(keys) + [0x50 + |keys|, 0xae], OP_INVALIDOPCODE, fAccurate);
    var k := SigOpsOfPushes(script, 1, keys, [0x50 + |keys|, 0xae], 0x50 + nSigs, fAccurate);
    assert [0x50 + |keys|, 0xae] == [0x50 + |keys|] + [0xae];
    SigOpsOfOp(script, 1 + |Pushes(keys)|, 0x50 + |keys|, [0xae], k, fAccurate);
    SigOpsOfLast(script, 2 + |Pushes(keys)|, 0xae, 0x50 + |keys|, fAccurate);
  }

  /** A spend of the hash of a script counts for what that script counts for. */
  lemma ScriptHashSigOps(items: seq<valtype>, redeem: valtype, h: valtype)
    requires Small(items) && |redeem| <= 520 && |h| == 20
    ensures P2SHSigOps([0xa9, 0x14] + h + [0x87], Pushes(items) + PushData(redeem)) == SigOps(redeem, true)
  {
    var all := items + [redeem];
    assert Small(all) by { assert all[|items|] == redeem && forall i | 0 <= i < |items| :: all[i] == items[i]; }
    assert IsPayToScriptHash([0xa9, 0x14] + h + [0x87]);
    PushesOfSum(items, [redeem]);
    PushesOne(redeem);
    hide Pushes, PushData, Small, SigOps, IsPayToScriptHash, At;
    AtStart(Pushes(all));
    PushesOnly(Pushes(all), 0, all);
    LastOfPushes(Pushes(all), 0, all, OP_INVALIDOPCODE, []);
  }

  lemma {:induction false} LastOfPushes(script: seq<byte>, pc: nat, bs: seq<valtype>, opcode: nat, data: valtype)
    requires At(script, pc, Pushes(bs)) && Small(bs)
    ensures LastFrom(script, pc, opcode, data).1 == if bs == [] then data else bs[|bs| - 1]
    decreases |bs|
  {
    hide PushData, GetOp;
    if bs != [] {
      ReadPush(script, pc, bs[0], Pushes(bs[1..]));
      LastOfPushes(script, pc + |PushData(bs[0])|, bs[1..], PushData(bs[0])[0], bs[0]);
    }
  }
}
