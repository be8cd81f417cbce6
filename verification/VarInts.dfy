/** Variable-length integers (serialize.h): base-128 digits, most significant first, with one
    subtracted from all but the last. A stream is what is left of it to read. */
module VarInts {
  import opened Arithmetic
  import opened CoinRecords

  datatype Parsed<+T> = Done(value: T, rest: seq<byte>) | EndOfData

  /** The leading digits of an encoding: a bijection between numbers and strings of bytes with
      the high bit set. */
  function Leading(a: nat): (p: seq<byte>)
    ensures forall i | 0 <= i < |p| :: p[i] >= 128
  {
    if a == 0 then [] else Leading((a - 1) / 128) + [128 + (a - 1) % 128]
  }

  function VarInt(n: nat): (b: seq<byte>)
    ensures b != []
  {
    Leading(n / 128) + [n % 128]
  }

  /** An encoding: all bytes but the last have the high bit set. */
  predicate IsEncoding(b: seq<byte>) {
    b != [] && b[|b| - 1] < 128 && forall i | 0 <= i < |b| - 1 :: b[i] >= 128
  }

  function LeadingValue(p: seq<byte>): (a: nat)
    requires forall i | 0 <= i < |p| :: p[i] >= 128
  {
    if p == [] then 0 else LeadingValue(p[..|p| - 1]) * 128 + (p[|p| - 1] - 128) + 1
  }

  function Value(b: seq<byte>): nat
    requires IsEncoding(b)
  {
    LeadingValue(b[..|b| - 1]) * 128 + b[|b| - 1]
  }

  lemma {:induction false} LeadingRoundTrip(a: nat)
    ensures LeadingValue(Leading(a)) == a
  {
    if a > 0 {
      LeadingRoundTrip((a - 1) / 128);
      var p := Leading((a - 1) / 128);
      assert Leading(a)[..|p|] == p;
    }
  }

  lemma {:induction false} LeadingIsOnto(p: seq<byte>)
    requires forall i | 0 <= i < |p| :: p[i] >= 128
    ensures Leading(LeadingValue(p)) == p
  {
    if p != [] {
      var q := p[..|p| - 1];
      LeadingIsOnto(q);
      assert p == q + [p[|p| - 1]];
      LastDigit(LeadingValue(q), p[|p| - 1] - 128);
    }
  }

  lemma LastDigit(a: nat, d: nat)
    requires d < 128
    ensures (a * 128 + d) / 128 == a && (a * 128 + d) % 128 == d
  {
    ResidueIsUnique(128, a * 128 + d, a, d);
  }

  lemma EncodingOf(n: nat)
    ensures IsEncoding(VarInt(n)) && Value(VarInt(n)) == n
  {
    LeadingRoundTrip(n / 128);
    var p, b := Leading(n / 128), VarInt(n);
    assert b[..|b| - 1] == p && b[|b| - 1] == n % 128;
    hide Leading, LeadingValue;
  }

  lemma EncodingIsOnto(b: seq<byte>)
    requires IsEncoding(b)
    ensures VarInt(Value(b)) == b
  {
    var p := b[..|b| - 1];
    LeadingIsOnto(p);
    LastDigit(LeadingValue(p), b[|b| - 1]);
    assert b == p + [b[|b| - 1]];
    hide Leading, LeadingValue;
  }

  /** Every number has exactly one encoding, and every encoding is some number's. */
  lemma VarIntIsBijection(n: nat, b: seq<byte>)
    ensures IsEncoding(VarInt(n)) && Value(VarInt(n)) == n
    ensures IsEncoding(b) ==> VarInt(Value(b)) == b
  {
    hide VarInt, Value, IsEncoding;
    EncodingOf(n);
    if IsEncoding(b) { EncodingIsOnto(b); }
  }

  // ---------- reading ----------

  /** ReadVarInt with n read so far, in an unsigned type of nBits bits. */
  function VarRead(s: seq<byte>, n: nat, nBits: nat): Parsed<nat> {
    if s == [] then EndOfData
    else
      var m := n * 128 % Pow2(nBits) + s[0] % 128;
      if s[0] >= 128 then VarRead(s[1..], (m + 1) % Pow2(nBits), nBits) else Done(m, s[1..])
  }

  lemma DigitFits(a: nat, d: nat, nBits: nat)
    requires d < 128 && a * 128 + d < Pow2(nBits)
    ensures a * 128 % Pow2(nBits) + d == a * 128 + d
  {
    ResidueIsUnique(Pow2(nBits), a * 128, 0, a * 128);
  }

  lemma {:induction false} ReadLeading(a: nat, t: seq<byte>, nBits: nat)
    requires a < Pow2(nBits)
    ensures VarRead(Leading(a) + t, 0, nBits) == VarRead(t, a, nBits)
  {
    if a == 0 {
      assert Leading(a) + t == t;
    } else {
      var q, d: byte := (a - 1) / 128, 128 + (a - 1) % 128;
      assert a - 1 == q * 128 + (d - 128) && Leading(a) == Leading(q) + [d];
      hide Leading, Pow2;
      ReadLeading(q, [d] + t, nBits);
      assert Leading(a) + t == Leading(q) + ([d] + t);
      ReadOne(q, d, t, nBits);
    }
  }

  /** One more leading digit. */
  lemma ReadOne(q: nat, d: byte, t: seq<byte>, nBits: nat)
    requires d >= 128 && q * 128 + (d - 128) + 1 < Pow2(nBits)
    ensures VarRead([d] + t, q, nBits) == VarRead(t, q * 128 + (d - 128) + 1, nBits)
  {
    hide Pow2;
    var a := q * 128 + (d - 128) + 1;
    DigitFits(q, d - 128, nBits);
    ResidueIsUnique(Pow2(nBits), a, 0, a);
    assert ([d] + t)[1..] == t;
  }

  /** What was written is read back, from whatever follows it. */
  lemma ReadAfterWrite(n: nat, t: seq<byte>, nBits: nat)
    requires n < Pow2(nBits)
    ensures VarRead(VarInt(n) + t, 0, nBits) == Done(n, t)
  {
    var q, d: byte := n / 128, n % 128;
    ReadLeading(q, [d] + t, nBits);
    assert VarInt(n) + t == Leading(q) + ([d] + t);
    DigitFits(q, d, nBits);
    assert ([d] + t)[1..] == t;
  }

  /** 128 divides the size of the type, so the last digit never carries over. */
  lemma DigitStays(a: nat, d: nat, nBits: nat)
    requires d < 128 && nBits >= 7
    ensures a * 128 % Pow2(nBits) + d < Pow2(nBits)
  {
    Pow2Sum(7, nBits - 7);
    assert Pow2(7) == 128 by { Pow2Sum(3, 4); }
    var p := Pow2(nBits - 7);
    hide Pow2;
    RoundBelow(a, p);
  }

  lemma RoundBelow(a: nat, p: nat)
    requires p > 0
    ensures a * 128 % (128 * p) <= 128 * p - 128
  {
    var q, r := a / p, a % p;
    assert a == p * q + r;
    assert p * q * 128 == (128 * p) * q;
    ResidueIsUnique(128 * p, a * 128, q, 128 * r);
  }

  lemma {:induction false} ReadFits(s: seq<byte>, n: nat, nBits: nat)
    requires nBits >= 7
    ensures VarRead(s, n, nBits).Done? ==> VarRead(s, n, nBits).value < Pow2(nBits)
    decreases |s|
  {
    if s != [] {
      DigitStays(n, s[0] % 128, nBits);
      var m := n * 128 % Pow2(nBits) + s[0] % 128;
      if s[0] >= 128 { ReadFits(s[1..], (m + 1) % Pow2(nBits), nBits); }
    }
  }

  /** What is written for a number of a signed type: a negative one passes the size test at
      once, and leaves its low seven bits. */
  function Encoding(n: int): (b: seq<byte>)
    ensures b != []
  {
    if n < 0 then [n % 128] else VarInt(n)
  }

  /** What comes back from disk. */
  function Restored(n: int): nat {
    if n < 0 then n % 128 else n
  }

  lemma ReadAfterEncoding(n: int, t: seq<byte>, nBits: nat)
    requires n < Pow2(nBits) && nBits >= 7
    ensures VarRead(Encoding(n) + t, 0, nBits) == Done(Restored(n), t)
  {
    if n < 0 {
      hide Pow2;
      ResidueIsUnique(Pow2(nBits), 0, 0, 0);
      assert (Encoding(n) + t)[1..] == t && (Encoding(n) + t)[0] == n % 128;
    } else {
      ReadAfterWrite(n, t, nBits);
    }
  }

  /** A signed number survives exactly when it is not negative. */
  lemma SignedRoundTripIff(n: int, t: seq<byte>, nBits: nat)
    requires n < Pow2(nBits) && nBits >= 7
    ensures VarRead(Encoding(n) + t, 0, nBits).Done?
    ensures VarRead(Encoding(n) + t, 0, nBits).value == n <==> n >= 0
    ensures n < 0 ==> |Encoding(n)| == 1 && VarRead(Encoding(n) + t, 0, nBits).value < 128
  {
    ReadAfterEncoding(n, t, nBits);
  }

  method ReadVarInt(s: seq<byte>, nBits: nat) returns (r: Parsed<nat>)
    requires nBits >= 7
    ensures r == VarRead(s, 0, nBits)
  {
    var n: nat, rest := 0, s;
    while true
      invariant VarRead(s, 0, nBits) == VarRead(rest, n, nBits)
      decreases |rest|
    {
      if rest == [] {
        return EndOfData;
      }
      var chData := rest[0];
      rest := rest[1..];
      n := n * 128 % Pow2(nBits) + chData % 128;
      if chData >= 128 {
        n := (n + 1) % Pow2(nBits);
      } else {
        return Done(n, rest);
      }
    }
  }

  // ---------- writing ----------

  /** The digits in the order in which the loop finds them, last digit first. */
  function Backwards(b: seq<byte>): (r: seq<byte>)
    ensures |r| == |b|
  {
    if b == [] then [] else Backwards(b[1..]) + [b[0]]
  }

  lemma {:induction false} BackwardsAppend(b: seq<byte>, x: byte)
    ensures Backwards(b + [x]) == [x] + Backwards(b)
  {
    if b != [] {
      assert (b + [x])[1..] == b[1..] + [x];
      BackwardsAppend(b[1..], x);
    }
  }

  /** 7-bit steps that fit a type fit its buffer. */
  lemma ShiftFits(n: nat, bits: nat)
    requires n >= 128 && n < Pow2(bits)
    ensures bits >= 8 && n / 128 - 1 < Pow2(bits - 7)
  {
    if bits < 8 { Pow2Mono(bits, 7); }
    assert Pow2(7) == 128 by { Pow2Sum(3, 4); }
    Pow2Sum(7, bits - 7);
  }

  /** What is in the buffer after some digits, and what is still to come. */
  ghost predicate Written(n: int, digits: seq<byte>, left: int) {
    if digits == [] then left == n else n >= 0 && left >= 0 && VarInt(n) == Leading(left + 1) + Backwards(digits)
  }

  lemma WriteDigit(n: int, digits: seq<byte>, left: int, d: byte)
    requires Written(n, digits, left) && d == left % 128 + (if digits == [] then 0 else 128)
    ensures left >= 128 ==> Written(n, digits + [d], left / 128 - 1)
    ensures left < 128 ==> Encoding(n) == Backwards(digits + [d])
  {
    BackwardsAppend(digits, d);
    if digits == [] {
      assert Backwards(digits + [d]) == [d];
    }
    if left >= 0 {
      assert Leading(left + 1) == Leading(left / 128) + [128 + left % 128];
      assert left < 128 ==> Leading(left / 128) == [];
    }
  }

  /** WriteVarInt, for a type of nBits bits, signed or not. */
  method WriteVarInt(os: seq<byte>, n: int, nBits: nat) returns (r: seq<byte>)
    requires nBits >= 1 && n < Pow2(nBits)
    ensures r == os + Encoding(n)
  {
    hide *;
    var tmp := new byte[(nBits + 6) / 7];
    var len := FillDigits(tmp, n, nBits);
    r := FlushDigits(os, tmp, len);
  }

  /** The first loop of WriteVarInt: the buffer is long enough for every number of the type. */
  method FillDigits(tmp: array<byte>, n: int, nBits: nat) returns (len: nat)
    requires nBits >= 1 && n < Pow2(nBits) && tmp.Length == (nBits + 6) / 7
    modifies tmp
    ensures len < tmp.Length && Encoding(n) == Backwards(tmp[..len + 1])
  {
    hide VarInt, Encoding, Backwards, Pow2;
    len := 0;
    var left := n;
    assert tmp[..0] == [] && Written(n, [], n);
    hide Written;
    while true
      invariant 7 * len < nBits && left < Pow2(nBits - 7 * len) && Written(n, tmp[..len], left)
      decreases left
    {
      ghost var before := tmp[..len];
      var d: byte := left % 128 + if len > 0 then 0x80 else 0;
      WriteDigit(n, before, left, d);
      tmp[len] := d;
      assert tmp[..len + 1] == before + [d];
      if left <= 0x7F {
        break;
      }
      ShiftFits(left, nBits - 7 * len);
      left := left / 128 - 1;
      len := len + 1;
    }
  }

  /** The second loop: the digits, last one found first. */
  method FlushDigits(os: seq<byte>, tmp: array<byte>, len: nat) returns (r: seq<byte>)
    requires len < tmp.Length
    ensures r == os + Backwards(tmp[..len + 1])
  {
    r := os;
    ghost var all := tmp[..len + 1];
    var k: nat := len + 1;
    while k > 0
      invariant k <= tmp.Length && r + Backwards(tmp[..k]) == os + Backwards(all)
    {
      k := k - 1;
      assert tmp[..k + 1] == tmp[..k] + [tmp[k]];
      BackwardsAppend(tmp[..k], tmp[k]);
      r := r + [tmp[k]];
    }
    assert tmp[..0] == [];
  }

  /** How the length of an encoding grows. */
  lemma LeadingLength(a: nat)
    ensures |Leading(a)| == if a == 0 then 0 else 1 + |Leading((a - 1) / 128)|
  {
  }

  method GetSizeOfVarInt(n: int) returns (nRet: nat)
    ensures nRet == |Encoding(n)|
  {
    nRet := 0;
    var left := n;
    while true
      invariant |Encoding(n)| == nRet + |Encoding(left)|
      decreases left
    {
      nRet := nRet + 1;
      if left >= 0 { LeadingLength(left / 128); }
      if left <= 0x7F {
        break;
      }
      left := left / 128 - 1;
    }
  }
}
