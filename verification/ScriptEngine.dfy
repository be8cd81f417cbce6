/** The script interpreter (script.cpp, EvalScript and VerifyScript), for any hash functions
    and any signature verdicts. */
module ScriptEngine {
  import opened CoinRecords
  import opened ScriptCodec
  import opened Multisig

  const MAX_SCRIPT_ELEMENT_SIZE := 520

  const vchFalse: valtype := []
  const vchTrue: valtype := [1]

  /** What an opcode does to the two stacks; Fail ends the script. */
  datatype Effect = Fail | Stacks(stack: seq<valtype>, altstack: seq<valtype>)

  datatype Num = NotANum | Num(n: int)

  /** CastToBigNum, which throws on long operands. */
  function CastToBigNum(vch: valtype): Num {
    if |vch| > 4 then NotANum else Num(DecodeNum(vch))
  }

  function BoolNum(b: bool): int {
    if b then 1 else 0
  }

  function Top(stack: seq<valtype>, i: nat): valtype
    requires 1 <= i <= |stack|
  {
    stack[|stack| - i]
  }

  function Drop(stack: seq<valtype>, n: nat): seq<valtype>
    requires n <= |stack|
  {
    stack[..|stack| - n]
  }

  /** OP_TOALTSTACK to OP_TUCK, but for OP_PICK and OP_ROLL. */
  function StackOp(opcode: nat, stack: seq<valtype>, altstack: seq<valtype>): Effect {
    var n := |stack|;
    match opcode
    case 0x6b => if n < 1 then Fail else Stacks(Drop(stack, 1), altstack + [Top(stack, 1)])
    case 0x6c => if |altstack| < 1 then Fail else Stacks(stack + [Top(altstack, 1)], Drop(altstack, 1))
    case 0x6d => if n < 2 then Fail else Stacks(Drop(stack, 2), altstack)
    case 0x6e => if n < 2 then Fail else Stacks(stack + [Top(stack, 2), Top(stack, 1)], altstack)
    case 0x6f => if n < 3 then Fail else Stacks(stack + [Top(stack, 3), Top(stack, 2), Top(stack, 1)], altstack)
    case 0x70 => if n < 4 then Fail else Stacks(stack + [Top(stack, 4), Top(stack, 3)], altstack)
    case 0x71 => if n < 6 then Fail else Stacks(Drop(stack, 6) + stack[n - 4..] + stack[n - 6..n - 4], altstack)
    case 0x72 => if n < 4 then Fail else Stacks(Drop(stack, 4) + stack[n - 2..] + stack[n - 4..n - 2], altstack)
    case 0x73 => if n < 1 then Fail else Stacks(if CastToBool(Top(stack, 1)) then stack + [Top(stack, 1)] else stack, altstack)
    case 0x74 => Stacks(stack + [EncodeNum(n)], altstack)
    case 0x75 => if n < 1 then Fail else Stacks(Drop(stack, 1), altstack)
    case 0x76 => if n < 1 then Fail else Stacks(stack + [Top(stack, 1)], altstack)
    case 0x77 => if n < 2 then Fail else Stacks(Drop(stack, 2) + [Top(stack, 1)], altstack)
    case 0x78 => if n < 2 then Fail else Stacks(stack + [Top(stack, 2)], altstack)
    case 0x7b => if n < 3 then Fail else Stacks(Drop(stack, 3) + [Top(stack, 2), Top(stack, 1), Top(stack, 3)], altstack)
    case 0x7c => if n < 2 then Fail else Stacks(Drop(stack, 2) + [Top(stack, 1), Top(stack, 2)], altstack)
    case 0x7d => if n < 2 then Fail else Stacks(Drop(stack, 2) + [Top(stack, 1), Top(stack, 2), Top(stack, 1)], altstack)
    case 0x82 => if n < 1 then Fail else Stacks(stack + [EncodeNum(|Top(stack, 1)|)], altstack)
    case _ => Fail
  }

  /** OP_PICK and OP_ROLL. */
  function PickOp(fRoll: bool, stack: seq<valtype>): Effect {
    if |stack| < 2 then Fail
    else
      var rest := Drop(stack, 1);
      match CastToBigNum(Top(stack, 1))
      case NotANum => Fail
      case Num(n) =>
        if n < 0 || n >= |rest| then Fail
        else
          var at := |rest| - n - 1;
          Stacks((if fRoll then rest[..at] + rest[at + 1..] else rest) + [rest[at]], [])
  }

  /** OP_EQUAL and OP_EQUALVERIFY. */
  function EqualOp(fVerify: bool, stack: seq<valtype>): Effect {
    if |stack| < 2 then Fail
    else
      var fEqual := Top(stack, 2) == Top(stack, 1);
      if !fVerify then Stacks(Drop(stack, 2) + [if fEqual then vchTrue else vchFalse], [])
      else if fEqual then Stacks(Drop(stack, 2), [])
      else Fail
  }

  /** The result of a one-operand numeric opcode. */
  function Unary(opcode: nat, bn: int): Num {
    match opcode
    case 0x8b => Num(bn + 1)
    case 0x8c => Num(bn - 1)
    case 0x8f => Num(-bn)
    case 0x90 => Num(if bn < 0 then -bn else bn)
    case 0x91 => Num(BoolNum(bn == 0))
    case 0x92 => Num(BoolNum(bn != 0))
    case _ => NotANum
  }

  function UnaryOp(opcode: nat, stack: seq<valtype>): Effect {
    if |stack| < 1 then Fail
    else
      match CastToBigNum(Top(stack, 1))
      case NotANum => Fail
      case Num(bn) =>
        match Unary(opcode, bn)
        case NotANum => Fail
        case Num(r) => Stacks(Drop(stack, 1) + [EncodeNum(r)], [])
  }

  /** The result of a two-operand numeric opcode. */
  function Binary(opcode: nat, bn1: int, bn2: int): Num {
    match opcode
    case 0x93 => Num(bn1 + bn2)
    case 0x94 => Num(bn1 - bn2)
    case 0x9a => Num(BoolNum(bn1 != 0 && bn2 != 0))
    case 0x9b => Num(BoolNum(bn1 != 0 || bn2 != 0))
    case 0x9c => Num(BoolNum(bn1 == bn2))
    case 0x9d => Num(BoolNum(bn1 == bn2))
    case 0x9e => Num(BoolNum(bn1 != bn2))
    case 0x9f => Num(BoolNum(bn1 < bn2))
    case 0xa0 => Num(BoolNum(bn1 > bn2))
    case 0xa1 => Num(BoolNum(bn1 <= bn2))
    case 0xa2 => Num(BoolNum(bn1 >= bn2))
    case 0xa3 => Num(if bn1 < bn2 then bn1 else bn2)
    case 0xa4 => Num(if bn1 > bn2 then bn1 else bn2)
    case _ => NotANum
  }

  function BinaryOp(opcode: nat, stack: seq<valtype>): Effect {
    if |stack| < 2 then Fail
    else
      match (CastToBigNum(Top(stack, 2)), CastToBigNum(Top(stack, 1)))
      case (Num(bn1), Num(bn2)) =>
        (match Binary(opcode, bn1, bn2)
         case NotANum => Fail
         case Num(r) =>
           if opcode != 0x9d then Stacks(Drop(stack, 2) + [EncodeNum(r)], [])
           else if CastToBool(EncodeNum(r)) then Stacks(Drop(stack, 2), [])
           else Fail)
      case _ => Fail
  }

  function WithinOp(stack: seq<valtype>): Effect {
    if |stack| < 3 then Fail
    else
      match (CastToBigNum(Top(stack, 3)), CastToBigNum(Top(stack, 2)), CastToBigNum(Top(stack, 1)))
      case (Num(bn1), Num(bn2), Num(bn3)) => Stacks(Drop(stack, 3) + [if bn2 <= bn1 < bn3 then vchTrue else vchFalse], [])
      case _ => Fail
  }

  /** The opcodes that need neither a hash nor a signature. */
  function PlainOp(opcode: nat, stack: seq<valtype>, altstack: seq<valtype>): Effect {
    var onStack :=
      if opcode == 0x79 || opcode == 0x7a then PickOp(opcode == 0x7a, stack)
      else if opcode == 0x87 || opcode == 0x88 then EqualOp(opcode == 0x88, stack)
      else if 0x8b <= opcode <= 0x92 then UnaryOp(opcode, stack)
      else if 0x93 <= opcode <= 0xa4 then BinaryOp(opcode, stack)
      else if opcode == 0xa5 then WithinOp(stack)
      else Fail;
    if 0x6b <= opcode <= 0x78 || 0x7b <= opcode <= 0x7d || opcode == 0x82 then StackOp(opcode, stack, altstack)
    else if onStack.Fail? then Fail
    else Stacks(onStack.stack, altstack)
  }

  lemma TopOfSum(base: seq<valtype>, xs: seq<valtype>, i: nat)
    requires 1 <= i <= |xs|
    ensures Top(base + xs, i) == xs[|xs| - i] && Drop(base + xs, |xs|) == base
  {
  }

  /** The effects on one or two entries, as the comments beside the opcodes draw them. */
  lemma EffectsOnTwo(s: seq<valtype>, t: seq<valtype>, x1: valtype, x2: valtype)
    ensures PlainOp(0x6b, s + [x2], t) == Stacks(s, t + [x2])
    ensures PlainOp(0x6c, s, t + [x2]) == Stacks(s + [x2], t)
    ensures PlainOp(0x75, s + [x2], t) == Stacks(s, t)
    ensures PlainOp(0x76, s + [x2], t) == Stacks(s + [x2, x2], t)
    ensures PlainOp(0x6d, s + [x1, x2], t) == Stacks(s, t)
    ensures PlainOp(0x6e, s + [x1, x2], t) == Stacks(s + [x1, x2, x1, x2], t)
    ensures PlainOp(0x77, s + [x1, x2], t) == Stacks(s + [x2], t)
    ensures PlainOp(0x78, s + [x1, x2], t) == Stacks(s + [x1, x2, x1], t)
    ensures PlainOp(0x7c, s + [x1, x2], t) == Stacks(s + [x2, x1], t)
    ensures PlainOp(0x7d, s + [x1, x2], t) == Stacks(s + [x2, x1, x2], t)
  {
    TopOfSum(s, [x2], 1);
    TopOfSum(t, [x2], 1);
    TopOfSum(s, [x1, x2], 1);
    TopOfSum(s, [x1, x2], 2);
    hide Top, Drop;
    assert s + [x2] + [x2] == s + [x2, x2];
    assert s + [x1, x2] + [x1, x2] == s + [x1, x2, x1, x2];
    assert s + [x1, x2] + [x1] == s + [x1, x2, x1];
  }

  lemma EffectsOnThree(s: seq<valtype>, t: seq<valtype>, x1: valtype, x2: valtype, x3: valtype)
    ensures PlainOp(0x6f, s + [x1, x2, x3], t) == Stacks(s + [x1, x2, x3, x1, x2, x3], t)
    ensures PlainOp(0x7b, s + [x1, x2, x3], t) == Stacks(s + [x2, x3, x1], t)
  {
    var xs := [x1, x2, x3];
    TopOfSum(s, xs, 1);
    TopOfSum(s, xs, 2);
    TopOfSum(s, xs, 3);
    hide Top, Drop;
    assert s + xs + xs == s + [x1, x2, x3, x1, x2, x3];
  }

  lemma EffectsOnFour(s: seq<valtype>, t: seq<valtype>, x1: valtype, x2: valtype, x3: valtype, x4: valtype)
    ensures PlainOp(0x70, s + [x1, x2, x3, x4], t) == Stacks(s + [x1, x2, x3, x4, x1, x2], t)
    ensures PlainOp(0x72, s + [x1, x2, x3, x4], t) == Stacks(s + [x3, x4, x1, x2], t)
  {
    var xs := [x1, x2, x3, x4];
    TopOfSum(s, xs, 3);
    TopOfSum(s, xs, 4);
    var a := s + xs;
    assert a[|a| - 2..] == [x3, x4] && a[|a| - 4..|a| - 2] == [x1, x2];
    hide Top, Drop;
    assert a + [x1, x2] == s + [x1, x2, x3, x4, x1, x2];
    assert s + [x3, x4] + [x1, x2] == s + [x3, x4, x1, x2];
  }

  lemma EffectsOnSix(s: seq<valtype>, t: seq<valtype>, x1: valtype, x2: valtype, x3: valtype, x4: valtype, x5: valtype, x6: valtype)
    ensures PlainOp(0x71, s + [x1, x2, x3, x4, x5, x6], t) == Stacks(s + [x3, x4, x5, x6, x1, x2], t)
  {
    var a := s + [x1, x2, x3, x4, x5, x6];
    TopOfSum(s, [x1, x2, x3, x4, x5, x6], 1);
    assert a[|a| - 4..] == [x3, x4, x5, x6] && a[|a| - 6..|a| - 4] == [x1, x2];
    hide Top, Drop;
    assert s + [x3, x4, x5, x6] + [x1, x2] == s + [x3, x4, x5, x6, x1, x2];
  }

  /** OP_PICK copies, and OP_ROLL moves, the entry that many below the top. */
  lemma PickAndRoll(s: seq<valtype>, t: seq<valtype>, x: valtype, above: seq<valtype>)
    requires |EncodeNum(|above|)| <= 4
    ensures PlainOp(0x79, s + [x] + above + [EncodeNum(|above|)], t) == Stacks(s + [x] + above + [x], t)
    ensures PlainOp(0x7a, s + [x] + above + [EncodeNum(|above|)], t) == Stacks(s + above + [x], t)
  {
    NumRoundTrip(|above|);
    var rest := s + [x] + above;
    var a := rest + [EncodeNum(|above|)];
    assert Drop(a, 1) == rest;
    hide EncodeNum, DecodeNum;
    assert rest[..|s|] == s && rest[|s| + 1..] == above && rest[|s|] == x;
  }

  /** OP_EQUAL and OP_EQUALVERIFY. */
  lemma EffectsOfEqual(s: seq<valtype>, t: seq<valtype>, x1: valtype, x2: valtype)
    ensures PlainOp(0x87, s + [x1, x2], t) == Stacks(s + [if x1 == x2 then [1] else []], t)
    ensures PlainOp(0x88, s + [x1, x2], t) == if x1 == x2 then Stacks(s, t) else Fail
  {
    TopOfSum(s, [x1, x2], 1);
    TopOfSum(s, [x1, x2], 2);
    hide Top, Drop;
  }

  /** A number that a numeric opcode takes: the sign and 31 bits. */
  predicate Operand(n: int) {
    -0x8000_0000 < n < 0x8000_0000
  }

  /** These are the numbers that fit the four bytes of an operand. */
  lemma OperandFits(n: int)
    ensures |EncodeNum(n)| <= 4 <==> Operand(n)
  {
    if n != 0 {
      var a := if n < 0 then -n else n;
      MagnitudeLength(a, 3);
      MagnitudeLength(a, 4);
      hide Magnitude;
      if |Magnitude(a)| == 4 { FourthByte(a); }
    }
  }

  lemma {:induction false} MagnitudeLength(n: nat, k: nat)
    ensures |Magnitude(n)| <= k <==> n < Pow256(k)
    ensures Pow256(3) == 0x100_0000 && Pow256(4) == 0x1_0000_0000
  {
    assert Pow256(1) == 256 && Pow256(2) == 0x1_0000;
    if k > 0 { MagnitudeLength(n / 256, k - 1); }
  }

  lemma FourthByte(n: nat)
    requires |Magnitude(n)| == 4
    ensures Magnitude(n)[3] >= 128 <==> n >= 0x8000_0000
  {
    var n1, n2, n3 := n / 256, n / 256 / 256, n / 256 / 256 / 256;
    assert |Magnitude(n1)| == 3;
    assert |Magnitude(n2)| == 2;
    assert |Magnitude(n3)| == 1;
    assert Magnitude(n)[3] == Magnitude(n1)[2] == Magnitude(n2)[1] == Magnitude(n3)[0];
    assert Magnitude(n3) == [n3 % 256] + Magnitude(n3 / 256);
    MagnitudeLength(n3, 1);
  }

  function Bit(b: bool): valtype {
    if b then [1] else []
  }

  lemma BitIsNumber(b: bool)
    ensures EncodeNum(BoolNum(b)) == Bit(b) && CastToBool(Bit(b)) == b
  {
    assert Magnitude(1) == [1];
    if b { assert Bit(b)[0] == 1; }
  }

  lemma UnaryOnNumber(opcode: nat, s: seq<valtype>, t: seq<valtype>, n: int)
    requires Operand(n) && 0x8b <= opcode <= 0x92 && Unary(opcode, n).Num?
    ensures PlainOp(opcode, s + [EncodeNum(n)], t) == Stacks(s + [EncodeNum(Unary(opcode, n).n)], t)
  {
    OperandFits(n);
    NumRoundTrip(n);
    TopOfSum(s, [EncodeNum(n)], 1);
    hide Top, Drop, EncodeNum, DecodeNum, Unary, StackOp;
  }

  /** The effects on one number. */
  lemma EffectsOnNumber(s: seq<valtype>, t: seq<valtype>, n: int)
    requires Operand(n)
    ensures PlainOp(0x8b, s + [EncodeNum(n)], t) == Stacks(s + [EncodeNum(n + 1)], t)
    ensures PlainOp(0x8c, s + [EncodeNum(n)], t) == Stacks(s + [EncodeNum(n - 1)], t)
    ensures PlainOp(0x8f, s + [EncodeNum(n)], t) == Stacks(s + [EncodeNum(-n)], t)
    ensures PlainOp(0x90, s + [EncodeNum(n)], t) == Stacks(s + [EncodeNum(if n < 0 then -n else n)], t)
    ensures PlainOp(0x91, s + [EncodeNum(n)], t) == Stacks(s + [Bit(n == 0)], t)
    ensures PlainOp(0x92, s + [EncodeNum(n)], t) == Stacks(s + [Bit(n != 0)], t)
  {
    hide EncodeNum, PlainOp;
    BitIsNumber(n == 0);
    BitIsNumber(n != 0);
    UnaryOnNumber(0x8b, s, t, n);
    UnaryOnNumber(0x8c, s, t, n);
    UnaryOnNumber(0x8f, s, t, n);
    UnaryOnNumber(0x90, s, t, n);
    UnaryOnNumber(0x91, s, t, n);
    UnaryOnNumber(0x92, s, t, n);
  }

  lemma BinaryOnNumbers(opcode: nat, s: seq<valtype>, t: seq<valtype>, a: int, b: int)
    requires Operand(a) && Operand(b) && 0x93 <= opcode <= 0xa4 && Binary(opcode, a, b).Num? && opcode != 0x9d
    ensures PlainOp(opcode, s + [EncodeNum(a), EncodeNum(b)], t) == Stacks(s + [EncodeNum(Binary(opcode, a, b).n)], t)
  {
    OperandFits(a);
    OperandFits(b);
    NumRoundTrip(a);
    NumRoundTrip(b);
    TopOfSum(s, [EncodeNum(a), EncodeNum(b)], 1);
    TopOfSum(s, [EncodeNum(a), EncodeNum(b)], 2);
    hide Top, Drop, EncodeNum, DecodeNum, Binary, StackOp;
  }

  /** The effects on two numbers: sums, smaller and larger one. */
  lemma EffectsOnNumbers(s: seq<valtype>, t: seq<valtype>, a: int, b: int)
    requires Operand(a) && Operand(b)
    ensures PlainOp(0x93, s + [EncodeNum(a), EncodeNum(b)], t) == Stacks(s + [EncodeNum(a + b)], t)
    ensures PlainOp(0x94, s + [EncodeNum(a), EncodeNum(b)], t) == Stacks(s + [EncodeNum(a - b)], t)
    ensures PlainOp(0xa3, s + [EncodeNum(a), EncodeNum(b)], t) == Stacks(s + [EncodeNum(if b < a then b else a)], t)
    ensures PlainOp(0xa4, s + [EncodeNum(a), EncodeNum(b)], t) == Stacks(s + [EncodeNum(if b < a then a else b)], t)
  {
    hide EncodeNum, PlainOp;
    BinaryOnNumbers(0x93, s, t, a, b);
    BinaryOnNumbers(0x94, s, t, a, b);
    BinaryOnNumbers(0xa3, s, t, a, b);
    BinaryOnNumbers(0xa4, s, t, a, b);
  }

  /** Truth values of two numbers. */
  lemma TestsOnNumbers(s: seq<valtype>, t: seq<valtype>, a: int, b: int)
    requires Operand(a) && Operand(b)
    ensures PlainOp(0x9a, s + [EncodeNum(a), EncodeNum(b)], t) == Stacks(s + [Bit(a != 0 && b != 0)], t)
    ensures PlainOp(0x9b, s + [EncodeNum(a), EncodeNum(b)], t) == Stacks(s + [Bit(a != 0 || b != 0)], t)
    ensures PlainOp(0x9c, s + [EncodeNum(a), EncodeNum(b)], t) == Stacks(s + [Bit(a == b)], t)
    ensures PlainOp(0x9e, s + [EncodeNum(a), EncodeNum(b)], t) == Stacks(s + [Bit(a != b)], t)
    ensures PlainOp(0x9f, s + [EncodeNum(a), EncodeNum(b)], t) == Stacks(s + [Bit(a < b)], t)
    ensures PlainOp(0xa0, s + [EncodeNum(a), EncodeNum(b)], t) == Stacks(s + [Bit(a > b)], t)
    ensures PlainOp(0xa1, s + [EncodeNum(a), EncodeNum(b)], t) == Stacks(s + [Bit(a <= b)], t)
    ensures PlainOp(0xa2, s + [EncodeNum(a), EncodeNum(b)], t) == Stacks(s + [Bit(a >= b)], t)
  {
    hide EncodeNum, PlainOp;
    BitIsNumber(true);
    BitIsNumber(false);
    BinaryOnNumbers(0x9a, s, t, a, b);
    BinaryOnNumbers(0x9b, s, t, a, b);
    BinaryOnNumbers(0x9c, s, t, a, b);
    BinaryOnNumbers(0x9e, s, t, a, b);
    BinaryOnNumbers(0x9f, s, t, a, b);
    BinaryOnNumbers(0xa0, s, t, a, b);
    BinaryOnNumbers(0xa1, s, t, a, b);
    BinaryOnNumbers(0xa2, s, t, a, b);
  }

  /** OP_NUMEQUALVERIFY, and OP_WITHIN, which excludes its upper bound. */
  lemma EffectsOfComparing(s: seq<valtype>, t: seq<valtype>, x: int, a: int, b: int)
    requires Operand(x) && Operand(a) && Operand(b)
    ensures PlainOp(0x9d, s + [EncodeNum(a), EncodeNum(b)], t) == if a == b then Stacks(s, t) else Fail
    ensures PlainOp(0xa5, s + [EncodeNum(x), EncodeNum(a), EncodeNum(b)], t) == Stacks(s + [Bit(a <= x && x < b)], t)
  {
    OperandFits(x);
    OperandFits(a);
    OperandFits(b);
    NumRoundTrip(x);
    NumRoundTrip(a);
    NumRoundTrip(b);
    BitIsNumber(a == b);
    var ab, xab := [EncodeNum(a), EncodeNum(b)], [EncodeNum(x), EncodeNum(a), EncodeNum(b)];
    TopOfSum(s, ab, 1);
    TopOfSum(s, ab, 2);
    TopOfSum(s, xab, 1);
    TopOfSum(s, xab, 2);
    TopOfSum(s, xab, 3);
    hide Top, Drop, EncodeNum, DecodeNum, StackOp, CastToBool;
  }

  /** An operand above four bytes ends the script. */
  lemma LongOperandsFail(opcode: nat, s: seq<valtype>, t: seq<valtype>, x: valtype)
    requires 0x8b <= opcode <= 0xa5 && |x| > 4
    ensures PlainOp(opcode, s + [x], t).Fail?
  {
    TopOfSum(s, [x], 1);
    hide StackOp, Binary, Unary;
  }

  /** OP_VERIFY. */
  function VerifyOp(stack: seq<valtype>): Effect {
    if |stack| < 1 || !CastToBool(Top(stack, 1)) then Fail else Stacks(Drop(stack, 1), [])
  }

  predicate Disabled(opcode: nat) {
    0x7e <= opcode <= 0x81 || 0x83 <= opcode <= 0x86 || opcode == 0x8d || opcode == 0x8e || 0x95 <= opcode <= 0x99
  }

  predicate AllTrue(vfExec: seq<bool>) {
    forall i | 0 <= i < |vfExec| :: vfExec[i]
  }

  function HashSize(opcode: nat): nat {
    if opcode == 0xa6 || opcode == 0xa7 || opcode == OP_HASH160 then 20 else 32
  }

  /** OP_RIPEMD160 to OP_HASH256. */
  function HashOp(opcode: nat, stack: seq<valtype>, checker: CSignatureChecker): Effect {
    if |stack| < 1 then Fail
    else Stacks(Drop(stack, 1) + [SizeBytes(checker.hash(opcode, Top(stack, 1)), HashSize(opcode))], [])
  }

  /** What a signature check leaves: the signature is tried on the script without itself. */
  ghost function CheckSigEffect(fVerify: bool, stack: seq<valtype>, scriptCode: seq<byte>, fStrict: bool, checker: CSignatureChecker): Effect {
    if |stack| < 2 then Fail
    else
      var code := Without(scriptCode, PushData(Top(stack, 2)));
      Verdict(fVerify, Drop(stack, 2), checker.Good(fStrict, Top(stack, 2), Top(stack, 1), code))
  }

  /** OP_CHECKSIG and OP_CHECKSIGVERIFY. */
  method CheckSigOp(fVerify: bool, stack: seq<valtype>, scriptCode: seq<byte>, fStrict: bool, checker: CSignatureChecker) returns (r: Effect)
    modifies checker
    ensures checker.nCalls <= old(checker.nCalls) + 1
    ensures r == CheckSigEffect(fVerify, stack, scriptCode, fStrict, checker)
  {
    hide Without, PushData, CSignatureChecker.Good;
    if |stack| < 2 {
      return Fail;
    }
    var code, nFound := FindAndDelete(scriptCode, PushData(Top(stack, 2)));
    var fSuccess := checker.CheckPair(fStrict, Top(stack, 2), Top(stack, 1), code);
    if !fVerify {
      r := Stacks(Drop(stack, 2) + [if fSuccess then vchTrue else vchFalse], []);
    } else if fSuccess {
      r := Stacks(Drop(stack, 2), []);
    } else {
      r := Fail;
    }
  }

  /** The -VERIFY form fails on a bad verdict; the other one pushes it. */
  function Verdict(fVerify: bool, rest: seq<valtype>, fSuccess: bool): Effect {
    if fVerify then if fSuccess then Stacks(rest, []) else Fail
    else Stacks(rest + [if fSuccess then vchTrue else vchFalse], [])
  }

  /** The script without any of the first k signatures from position isig below the top. */
  function WithoutAll(scriptCode: seq<byte>, stack: seq<valtype>, isig: nat, k: nat): seq<byte>
    requires isig >= 1 && isig + k <= |stack| + 1
  {
    if k == 0 then scriptCode else Without(WithoutAll(scriptCode, stack, isig, k - 1), PushData(Top(stack, isig + k - 1)))
  }

  /** The counts that OP_CHECKMULTISIG finds on the stack. */
  datatype MultisigCounts = NoCounts | Counts(nKeys: nat, nSigs: nat)

  function ReadCounts(stack: seq<valtype>, nOpCount: nat): (c: MultisigCounts)
    ensures c.Counts? ==> c.nKeys <= 20 && nOpCount + c.nKeys <= 201 && c.nSigs <= c.nKeys && 3 + c.nKeys + c.nSigs <= |stack| && c.nKeys == DecodeNum(Top(stack, 1))
  {
    if |stack| < 1 then NoCounts
    else
      match CastToBigNum(Top(stack, 1))
      case NotANum => NoCounts
      case Num(nKeys) =>
        if nKeys < 0 || nKeys > 20 || nOpCount + nKeys > 201 || |stack| < 2 + nKeys then NoCounts
        else
          match CastToBigNum(Top(stack, 2 + nKeys))
          case NotANum => NoCounts
          case Num(nSigs) => if nSigs < 0 || nSigs > nKeys || |stack| < 3 + nKeys + nSigs then NoCounts else Counts(nKeys, nSigs)
  }

  /** OP_CHECKMULTISIG and OP_CHECKMULTISIGVERIFY: true exactly when the signatures can be
      assigned to the keys in order; at most one call per key. */
  method CheckMultisigOp(fVerify: bool, stack: seq<valtype>, scriptCode: seq<byte>, nOpCount: nat, fStrict: bool, checker: CSignatureChecker)
    returns (r: Effect, nOpCountOut: nat)
    modifies checker
    ensures ReadCounts(stack, nOpCount).NoCounts? ==> r.Fail? && checker.nCalls == old(checker.nCalls)
    ensures ReadCounts(stack, nOpCount).Counts? ==>
              var c := ReadCounts(stack, nOpCount);
              && checker.nCalls <= old(checker.nCalls) + c.nKeys && nOpCountOut == nOpCount + c.nKeys
              && var code := WithoutAll(scriptCode, stack, 3 + c.nKeys, c.nSigs);
                 var fSuccess := checker.Assignable(fStrict, Column(stack, 3 + c.nKeys, c.nSigs), Column(stack, 2, c.nKeys), code);
                 r == Verdict(fVerify, Drop(stack, 3 + c.nKeys + c.nSigs), fSuccess)
  {
    hide CSignatureChecker.Assignable, Without, PushData;
    nOpCountOut := nOpCount;
    var c := ReadCounts(stack, nOpCount);
    if c.NoCounts? {
      return Fail, nOpCountOut;
    }
    nOpCountOut := nOpCount + c.nKeys;
    var ikey, isig := 2, 3 + c.nKeys;
    var code := scriptCode;
    for k := 0 to c.nSigs
      invariant checker.nCalls == old(checker.nCalls) && code == WithoutAll(scriptCode, stack, isig, k)
    {
      var nFound;
      code, nFound := FindAndDelete(code, PushData(Top(stack, isig + k)));
    }
    var fSuccess := checker.MatchSignatures(stack, isig, c.nSigs, ikey, c.nKeys, code, fStrict);
    var rest := Drop(stack, 3 + c.nKeys + c.nSigs);
    if !fVerify {
      r := Stacks(rest + [if fSuccess then vchTrue else vchFalse], []);
    } else if fSuccess {
      r := Stacks(rest, []);
    } else {
      r := Fail;
    }
  }

  // ---------- one instruction ----------

  /** The interpreter's variables between instructions. */
  datatype Machine = Machine(stack: seq<valtype>, altstack: seq<valtype>, vfExec: seq<bool>, nOpCount: nat, nBeginCodeHash: nat)

  datatype Outcome = Stop | Go(m: Machine)

  /** After an executed push its value is on top. */
  ghost predicate TopIs(m: Machine, lastOpcode: nat, lastData: valtype) {
    AllTrue(m.vfExec) && lastOpcode <= OP_16 ==> m.stack != [] && m.stack[|m.stack| - 1] == Pushed(lastOpcode, lastData)
  }

  function OnStacks(m: Machine, e: Effect): Outcome {
    if e.Fail? then Stop else Go(m.(stack := e.stack, altstack := e.altstack))
  }

  function OnStack(m: Machine, e: Effect): Outcome {
    if e.Fail? then Stop else Go(m.(stack := e.stack))
  }

  /** OP_IF to OP_ENDIF, which are read in branches not taken, too. */
  function BranchOp(opcode: nat, m: Machine, fExec: bool): Outcome {
    if opcode == OP_IF || opcode == OP_NOTIF then
      if !fExec then Go(m.(vfExec := m.vfExec + [false]))
      else if |m.stack| < 1 then Stop
      else Go(m.(vfExec := m.vfExec + [CastToBool(Top(m.stack, 1)) == (opcode == OP_IF)], stack := Drop(m.stack, 1)))
    else if opcode == OP_ELSE then
      if m.vfExec == [] then Stop else Go(m.(vfExec := m.vfExec[|m.vfExec| - 1 := !m.vfExec[|m.vfExec| - 1]]))
    else if opcode == OP_ENDIF then
      if m.vfExec == [] then Stop else Go(m.(vfExec := m.vfExec[..|m.vfExec| - 1]))
    else Stop
  }

  ghost function CheckMultisigEffect(fVerify: bool, m: Machine, scriptCode: seq<byte>, fStrict: bool, checker: CSignatureChecker): Outcome {
    match ReadCounts(m.stack, m.nOpCount)
    case NoCounts => Stop
    case Counts(nKeys, nSigs) =>
      var code := WithoutAll(scriptCode, m.stack, 3 + nKeys, nSigs);
      var fSuccess := checker.Assignable(fStrict, Column(m.stack, 3 + nKeys, nSigs), Column(m.stack, 2, nKeys), code);
      OnStack(m.(nOpCount := m.nOpCount + nKeys), Verdict(fVerify, Drop(m.stack, 3 + nKeys + nSigs), fSuccess))
  }

  ghost function SignatureEffect(opcode: nat, m: Machine, scriptCode: seq<byte>, fStrict: bool, checker: CSignatureChecker): (r: Outcome)
    ensures r.Go? ==> r.m.vfExec == m.vfExec && r.m.altstack == m.altstack && r.m.nBeginCodeHash == m.nBeginCodeHash
  {
    if opcode == OP_CHECKSIG || opcode == OP_CHECKSIGVERIFY then
      OnStack(m, CheckSigEffect(opcode == OP_CHECKSIGVERIFY, m.stack, scriptCode, fStrict, checker))
    else CheckMultisigEffect(opcode == OP_CHECKMULTISIGVERIFY, m, scriptCode, fStrict, checker)
  }

  /** The opcodes from OP_CHECKSIG to OP_CHECKMULTISIGVERIFY. */
  method SignatureOp(opcode: nat, m: Machine, script: seq<byte>, fStrict: bool, checker: CSignatureChecker, ghost lastOpcode: nat, ghost lastData: valtype)
    returns (r: Outcome)
    requires OP_CHECKSIG <= opcode <= OP_CHECKMULTISIGVERIFY && m.nBeginCodeHash <= |script|
    requires AllTrue(m.vfExec) && TopIs(m, lastOpcode, lastData)
    modifies checker
    ensures checker.nCalls <= old(checker.nCalls) + SigOpsOf(opcode, lastOpcode, true)
    ensures r == SignatureEffect(opcode, m, script[m.nBeginCodeHash..], fStrict, checker)
  {
    hide Without, WithoutAll, PushData, Column, Verdict, CheckSigEffect, CSignatureChecker.Good;
    var scriptCode := script[m.nBeginCodeHash..];
    if opcode == OP_CHECKSIG || opcode == OP_CHECKSIGVERIFY {
      var e := CheckSigOp(opcode == OP_CHECKSIGVERIFY, m.stack, scriptCode, fStrict, checker);
      r := OnStack(m, e);
    } else {
      KeysOnTop(m.stack, m.nOpCount, lastOpcode);
      hide CSignatureChecker.Assignable, ReadCounts, EncodeNum, DecodeNum;
      var e, nOpCount := CheckMultisigOp(opcode == OP_CHECKMULTISIGVERIFY, m.stack, scriptCode, m.nOpCount, fStrict, checker);
      r := OnStack(m.(nOpCount := nOpCount), e);
    }
  }

  /** OP_N on top of the stack means N keys; otherwise there are at most 20. */
  lemma KeysOnTop(stack: seq<valtype>, nOpCount: nat, lastOpcode: nat)
    ensures ReadCounts(stack, nOpCount).Counts? ==> ReadCounts(stack, nOpCount).nKeys <= 20
    ensures ReadCounts(stack, nOpCount).Counts? && OP_1 <= lastOpcode <= OP_16 && Top(stack, 1) == EncodeNum(lastOpcode - (OP_1 - 1)) ==>
              ReadCounts(stack, nOpCount).nKeys == lastOpcode - (OP_1 - 1)
  {
    NumRoundTrip(lastOpcode - (OP_1 - 1));
    hide EncodeNum, DecodeNum;
  }

  /** What an executed instruction other than a plain push leaves. */
  ghost function Executed(opcode: nat, m: Machine, script: seq<byte>, next: nat, fExec: bool, fStrict: bool, checker: CSignatureChecker): (r: Outcome)
    requires m.nBeginCodeHash <= |script| && next <= |script|
    ensures r.Go? ==> r.m.nBeginCodeHash <= |script|
  {
    if opcode == OP_1NEGATE || OP_1 <= opcode <= OP_16 then Go(m.(stack := m.stack + [EncodeNum(opcode - (OP_1 - 1))]))
    else if opcode == OP_NOP || OP_NOP1 <= opcode <= OP_NOP10 then Go(m)
    else if OP_IF <= opcode <= OP_ENDIF then BranchOp(opcode, m, fExec)
    else if opcode == OP_VERIFY then OnStack(m, VerifyOp(m.stack))
    else if 0xa6 <= opcode <= 0xaa then OnStack(m, HashOp(opcode, m.stack, checker))
    else if opcode == OP_CODESEPARATOR then Go(m.(nBeginCodeHash := next))
    else if OP_CHECKSIG <= opcode <= OP_CHECKMULTISIGVERIFY then SignatureEffect(opcode, m, script[m.nBeginCodeHash..], fStrict, checker)
    else OnStacks(m, PlainOp(opcode, m.stack, m.altstack))
  }

  /** An executed instruction other than a plain push. */
  method Execute(opcode: nat, m: Machine, script: seq<byte>, next: nat, fExec: bool, fStrict: bool, checker: CSignatureChecker,
                 ghost lastOpcode: nat, ghost lastData: valtype)
    returns (r: Outcome)
    requires fExec == AllTrue(m.vfExec) && (fExec || OP_IF <= opcode <= OP_ENDIF) && opcode > OP_PUSHDATA4
    requires m.nBeginCodeHash <= |script| && next <= |script| && TopIs(m, lastOpcode, lastData)
    modifies checker
    ensures checker.nCalls <= old(checker.nCalls) + SigOpsOf(opcode, lastOpcode, true)
    ensures r == Executed(opcode, m, script, next, fExec, fStrict, checker)
    ensures r.Go? && opcode <= OP_16 ==> r.m.vfExec == m.vfExec && TopIs(r.m, opcode, []) && opcode != 0x50
    ensures r.Go? && opcode == OP_HASH160 ==> m.stack != []
  {
    hide StackOp, PlainOp, BranchOp, EncodeNum, CastToBool, AllTrue;
    if opcode == OP_1NEGATE || OP_1 <= opcode <= OP_16 {
      r := Go(m.(stack := m.stack + [EncodeNum(opcode - (OP_1 - 1))]));
    } else if opcode == OP_NOP || OP_NOP1 <= opcode <= OP_NOP10 {
      r := Go(m);
    } else if OP_IF <= opcode <= OP_ENDIF {
      r := BranchOp(opcode, m, fExec);
      BranchKeepsCode(opcode, m, fExec);
    } else if opcode == OP_VERIFY {
      r := OnStack(m, VerifyOp(m.stack));
    } else if 0xa6 <= opcode <= 0xaa {
      r := OnStack(m, HashOp(opcode, m.stack, checker));
    } else if opcode == OP_CODESEPARATOR {
      r := Go(m.(nBeginCodeHash := next));
    } else if OP_CHECKSIG <= opcode <= OP_CHECKMULTISIGVERIFY {
      r := SignatureOp(opcode, m, script, fStrict, checker, lastOpcode, lastData);
    } else {
      r := OnStacks(m, PlainOp(opcode, m.stack, m.altstack)); // fails on OP_RETURN and unknown opcodes
      ReservedFails(opcode, m.stack, m.altstack);
    }
  }

  lemma BranchKeepsCode(opcode: nat, m: Machine, fExec: bool)
    ensures BranchOp(opcode, m, fExec).Go? ==> BranchOp(opcode, m, fExec).m.nBeginCodeHash == m.nBeginCodeHash
  {
  }

  lemma ReservedFails(opcode: nat, stack: seq<valtype>, altstack: seq<valtype>)
    ensures opcode <= OP_RETURN ==> PlainOp(opcode, stack, altstack).Fail?
  {
  }

  // ---------- whole scripts ----------

  /** One instruction, executed or passed over, and the limits. */
  ghost function Step(op: Instruction, m: Machine, script: seq<byte>, fStrict: bool, checker: CSignatureChecker): (r: Outcome)
    requires op.Instruction? && m.nBeginCodeHash <= |script| && op.next <= |script|
    ensures r.Go? ==> r.m.nBeginCodeHash <= |script|
  {
    var fExec := AllTrue(m.vfExec);
    var counted := if op.opcode > OP_16 then m.(nOpCount := m.nOpCount + 1) else m;
    if |op.vchRet| > MAX_SCRIPT_ELEMENT_SIZE || (op.opcode > OP_16 && counted.nOpCount > 201) || Disabled(op.opcode) then Stop
    else
      var r :=
        if fExec && op.opcode <= OP_PUSHDATA4 then Go(counted.(stack := m.stack + [op.vchRet]))
        else if fExec || OP_IF <= op.opcode <= OP_ENDIF then Executed(op.opcode, counted, script, op.next, fExec, fStrict, checker)
        else Go(counted);
      if r.Go? && |r.m.stack| + |r.m.altstack| > 1000 then Stop else r
  }

  /** The instructions from pc on; all branches must be closed at the end. */
  ghost function Run(m: Machine, script: seq<byte>, pc: nat, fStrict: bool, checker: CSignatureChecker): Outcome
    requires m.nBeginCodeHash <= |script|
    decreases |script| - pc
  {
    if pc >= |script| then if m.vfExec == [] then Go(m) else Stop
    else
      var op := GetOp(script, pc);
      if op.Bad? then Stop
      else
        match Step(op, m, script, fStrict, checker)
        case Stop => Stop
        case Go(n) => Run(n, script, op.next, fStrict, checker)
  }

  /** A whole script on a given stack. */
  ghost function Eval(stack: seq<valtype>, script: seq<byte>, fStrict: bool, checker: CSignatureChecker): Outcome {
    if |script| > 10000 then Stop else Run(Machine(stack, [], [], 0, 0), script, 0, fStrict, checker)
  }

  lemma RunStep(m: Machine, script: seq<byte>, pc: nat, fStrict: bool, checker: CSignatureChecker)
    requires m.nBeginCodeHash <= |script| && pc < |script|
    ensures GetOp(script, pc).Bad? ==> Run(m, script, pc, fStrict, checker).Stop?
    ensures GetOp(script, pc).Instruction? ==>
              var r := Step(GetOp(script, pc), m, script, fStrict, checker);
              Run(m, script, pc, fStrict, checker) == if r.Stop? then Stop else Run(r.m, script, GetOp(script, pc).next, fStrict, checker)
  {
    hide Step, GetOp;
  }

  lemma RunOver(m: Machine, script: seq<byte>, pc: nat, fStrict: bool, checker: CSignatureChecker)
    requires m.nBeginCodeHash <= |script| && pc >= |script|
    ensures Run(m, script, pc, fStrict, checker) == if m.vfExec == [] then Go(m) else Stop
  {
  }

  lemma DataIsPushed(opcode: nat, data: valtype)
    requires opcode <= OP_PUSHDATA4
    ensures Pushed(opcode, data) == data
  {
  }

  /** Runs the script. It makes no more CheckSig calls than the accurate static count, and a
      script of pushes that succeeds leaves its last push on top. */
  method EvalScript(stackIn: seq<valtype>, script: seq<byte>, fStrict: bool, checker: CSignatureChecker) returns (ok: bool, stack: seq<valtype>)
    modifies checker
    ensures ok == Eval(stackIn, script, fStrict, checker).Go?
    ensures ok ==> stack == Eval(stackIn, script, fStrict, checker).m.stack
    ensures checker.nCalls <= old(checker.nCalls) + SigOps(script, true)
    ensures ok && IsPushOnlyFrom(script, 0) ==>
              var last := LastFrom(script, 0, OP_INVALIDOPCODE, []);
              if script == [] then stack == stackIn else stack != [] && last.0 <= OP_16 && last.0 != 0x50 && stack[|stack| - 1] == Pushed(last.0, last.1)
    ensures ok && script != [] && script[0] == OP_HASH160 ==> stackIn != []
  {
    hide SigOpsOf, EncodeNum, Pushed, Run, Executed, Disabled, GetOp;
    stack, ok := stackIn, false;
    if |script| > 10000 {
      return;
    }
    var m := Machine(stackIn, [], [], 0, 0);
    var pc := 0;
    ghost var lastOpcode: nat, lastData: valtype := OP_INVALIDOPCODE, [];
    while pc < |script|
      invariant pc <= |script| && m.nBeginCodeHash <= |script|
      invariant checker.nCalls + SigOpsFrom(script, pc, lastOpcode, true) <= old(checker.nCalls) + SigOps(script, true)
      invariant Run(m, script, pc, fStrict, checker) == Eval(stackIn, script, fStrict, checker)
      invariant TopIs(m, lastOpcode, lastData)
      invariant LastFrom(script, 0, OP_INVALIDOPCODE, []) == LastFrom(script, pc, lastOpcode, lastData)
      invariant IsPushOnlyFrom(script, 0) ==> IsPushOnlyFrom(script, pc) && m.vfExec == [] && (if pc == 0 then m.stack == stackIn else lastOpcode <= OP_16 && lastOpcode != 0x50)
      invariant pc == 0 ==> m.stack == stackIn && m.vfExec == []
      invariant pc > 0 && script[0] == OP_HASH160 ==> stackIn != []
      decreases |script| - pc
    {
      RunStep(m, script, pc, fStrict, checker);
      var fExec := AllTrue(m.vfExec);
      var op := GetOp(script, pc);
      if op.Bad? {
        return;
      }
      if |op.vchRet| > MAX_SCRIPT_ELEMENT_SIZE {
        return;
      }
      if op.opcode > OP_16 {
        m := m.(nOpCount := m.nOpCount + 1);
        if m.nOpCount > 201 {
          return;
        }
      }
      if Disabled(op.opcode) {
        return;
      }
      if fExec && op.opcode <= OP_PUSHDATA4 {
        m := m.(stack := m.stack + [op.vchRet]);
        DataIsPushed(op.opcode, op.vchRet);
      } else if fExec || OP_IF <= op.opcode <= OP_ENDIF {
        var r := Execute(op.opcode, m, script, op.next, fExec, fStrict, checker, lastOpcode, lastData);
        if r.Stop? {
          return;
        }
        m := r.m;
      }
      if |m.stack| + |m.altstack| > 1000 {
        return;
      }
      lastOpcode, lastData := op.opcode, op.vchRet;
      pc := op.next;
    }
    RunOver(m, script, pc, fStrict, checker);
    ok := m.vfExec == [];
    stack := m.stack;
  }

  // ---------- verification ----------

  /** A number's one byte is a script that calls CheckSig no time: it starts a push that it
      does not finish, or is a disabled opcode. */
  lemma NumberIsNoScript(opcode: nat)
    requires opcode == OP_1NEGATE || OP_1 <= opcode <= OP_16
    ensures SigOps(EncodeNum(opcode - (OP_1 - 1)), true) == 0
  {
    var n: int := opcode - (OP_1 - 1);
    var s := EncodeNum(n);
    var a: nat := if n < 0 then 1 else n;
    assert Magnitude(a) == [a] by { assert a / 256 == 0; }
    assert |s| == 1 && s[0] == if n < 0 then 129 else n;
    if n > 0 {
      assert GetOp(s, 0).Bad?;
    } else {
      assert GetOp(s, 0) == Instruction(129, [], 1);
      assert GetOp(s, 1).Bad? && SigOpsFrom(s, 1, 129, true) == 0;
      assert SigOpsFrom(s, 0, OP_INVALIDOPCODE, true) == SigOpsOf(129, OP_INVALIDOPCODE, true);
    }
  }

  /** The script that a pay-to-script-hash spend runs last makes no more calls than
      GetSigOpCount finds in the spend. */
  lemma RedeemScriptIsCounted(scriptSig: seq<byte>, scriptPubKey: seq<byte>)
    requires IsPayToScriptHash(scriptPubKey) && IsPushOnlyFrom(scriptSig, 0)
    requires LastFrom(scriptSig, 0, OP_INVALIDOPCODE, []).0 <= OP_16
    requires LastFrom(scriptSig, 0, OP_INVALIDOPCODE, []).0 != 0x50
    ensures
      var last := LastFrom(scriptSig, 0, OP_INVALIDOPCODE, []);
      SigOps(Pushed(last.0, last.1), true) <= P2SHSigOps(scriptPubKey, scriptSig)
  {
    var last := LastFrom(scriptSig, 0, OP_INVALIDOPCODE, []);
    if last.0 > OP_PUSHDATA4 {
      NumberIsNoScript(last.0);
    }
    hide SigOps;
  }

  /** The most CheckSig calls a spend can cost. */
  function SpendSigOps(scriptSig: seq<byte>, scriptPubKey: seq<byte>, fP2SH: bool): nat {
    SigOps(scriptSig, true) + SigOps(scriptPubKey, true)
    + if fP2SH && IsPayToScriptHash(scriptPubKey) then P2SHSigOps(scriptPubKey, scriptSig) else 0
  }

  predicate TrueOnTop(stack: seq<valtype>) {
    stack != [] && CastToBool(Top(stack, 1))
  }

  /** Both scripts run, one on the stack of the other, and leave a true entry on top. For a
      script hash the signature script consists of pushes, too, and its last push is a script
      that runs on the entries below it and leaves a true entry on top. */
  ghost predicate Verified(scriptSig: seq<byte>, scriptPubKey: seq<byte>, fP2SH: bool, fStrict: bool, checker: CSignatureChecker) {
    && var first := Eval([], scriptSig, fStrict, checker);
    && first.Go?
    && var second := Eval(first.m.stack, scriptPubKey, fStrict, checker);
    && second.Go? && TrueOnTop(second.m.stack)
    && (fP2SH && IsPayToScriptHash(scriptPubKey) ==>
          && IsPushOnlyFrom(scriptSig, 0) && first.m.stack != []
          && var third := Eval(Drop(first.m.stack, 1), Top(first.m.stack, 1), fStrict, checker);
             third.Go? && TrueOnTop(third.m.stack))
  }

  method VerifyScript(scriptSig: seq<byte>, scriptPubKey: seq<byte>, fP2SH: bool, fStrict: bool, checker: CSignatureChecker) returns (ok: bool)
    modifies checker
    ensures ok == Verified(scriptSig, scriptPubKey, fP2SH, fStrict, checker)
    ensures checker.nCalls <= old(checker.nCalls) + SpendSigOps(scriptSig, scriptPubKey, fP2SH)
  {
    hide SigOps, P2SHSigOps, Pushed, CastToBool, Eval;
    var stack, stackCopy: seq<valtype>;
    ok, stack := EvalScript([], scriptSig, fStrict, checker);
    if !ok {
      return;
    }
    stackCopy := if fP2SH then stack else [];
    ok, stack := EvalScript(stack, scriptPubKey, fStrict, checker);
    if !ok {
      return;
    }
    if stack == [] || !CastToBool(Top(stack, 1)) {
      return false;
    }
    if fP2SH && IsPayToScriptHash(scriptPubKey) {
      var fPushOnly := IsPushOnly(scriptSig);
      if !fPushOnly {
        return false;
      }
      assert stackCopy != [];
      var pubKey2 := Top(stackCopy, 1);
      stackCopy := Drop(stackCopy, 1);
      RedeemScriptIsCounted(scriptSig, scriptPubKey);
      ok, stackCopy := EvalScript(stackCopy, pubKey2, fStrict, checker);
      if !ok {
        return;
      }
      ok := stackCopy != [] && CastToBool(Top(stackCopy, 1));
    }
  }

  /** Counting inaccurately bounds the calls as well. */
  lemma InaccurateCountBounds(script: seq<byte>)
    ensures SigOps(script, true) <= SigOps(script, false)
  {
    AccurateCountsLess(script, 0, OP_INVALIDOPCODE);
  }
}
