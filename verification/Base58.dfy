/** Base 58 (base58.h). A string of digits, in any base, is a number of leading zeros and a
    number; encoding and decoding change the base. Big numbers are natural numbers, and
    strings hold no terminator. */
module Base58 {
  import opened Arithmetic
  import opened CoinRecords

  // ---------- digit strings ----------

  predicate AreDigits(d: seq<nat>, b: nat) {
    forall i | 0 <= i < |d| :: d[i] < b
  }

  /** The number that big endian digits write. */
  function Num(d: seq<nat>, b: nat): nat {
    if d == [] then 0 else b * Num(d[..|d| - 1], b) + d[|d| - 1]
  }

  /** The digits of a number, without leading zeros. */
  function Big(n: nat, b: nat): (d: seq<nat>)
    requires b >= 2
    ensures AreDigits(d, b)
  {
    if n == 0 then [] else
      Smaller(n, b);
      Big(n / b, b) + [n % b]
  }

  lemma Smaller(n: nat, b: nat)
    requires n > 0 && b >= 2
    ensures 0 <= n / b < n && n == b * (n / b) + n % b && 0 <= n % b < b
  {
    var q := n / b;
    assert n == b * q + n % b;
    if q < 0 { MulMono(b, q, -1); }
    if q >= n { MulMono(b, n, q); }
  }

  function Zeros(z: nat): (d: seq<nat>)
    ensures |d| == z && forall i | 0 <= i < z :: d[i] == 0
  {
    if z == 0 then [] else Zeros(z - 1) + [0]
  }

  /** How many zeros lead. */
  function Lead(d: seq<nat>): (z: nat)
    ensures z <= |d| && (z < |d| ==> d[z] != 0) && forall i | 0 <= i < z :: d[i] == 0
  {
    if d == [] then 0
    else if Lead(d[..|d| - 1]) == |d| - 1 && d[|d| - 1] == 0 then |d|
    else Lead(d[..|d| - 1])
  }

  /** The string with z leading zeros that writes n. */
  function Rep(z: nat, n: nat, b: nat): (d: seq<nat>)
    requires b >= 2
    ensures AreDigits(d, b)
  {
    Zeros(z) + Big(n, b)
  }

  lemma {:induction false} BigRoundTrip(n: nat, b: nat)
    requires b >= 2
    ensures Num(Big(n, b), b) == n && (if n > 0 then Big(n, b) != [] && Big(n, b)[0] != 0 else Big(n, b) == [])
  {
    if n > 0 {
      Smaller(n, b);
      BigRoundTrip(n / b, b);
      var d := Big(n / b, b);
      assert Big(n, b) == d + [n % b];
      assert (d + [n % b])[..|d|] == d;
    }
  }

  lemma {:induction false} NumOfRep(z: nat, n: nat, b: nat)
    requires b >= 2
    ensures Num(Rep(z, n, b), b) == n && Lead(Rep(z, n, b)) == z
  {
    if n == 0 {
      NumOfZeros(z, b);
      assert Rep(z, n, b) == Zeros(z);
    } else {
      Smaller(n, b);
      NumOfRep(z, n / b, b);
      BigRoundTrip(n, b);
      assert Rep(z, n, b) == Rep(z, n / b, b) + [n % b];
      assert Rep(z, n, b)[..|Rep(z, n / b, b)|] == Rep(z, n / b, b);
      assert Rep(z, n, b)[z] == Big(n, b)[0];
    }
  }

  lemma {:induction false} NumOfZeros(z: nat, b: nat)
    ensures Num(Zeros(z), b) == 0
  {
    if z > 0 {
      NumOfZeros(z - 1, b);
      assert Zeros(z)[..z - 1] == Zeros(z - 1);
      assert b * 0 == 0;
    }
  }

  /** Every digit string is the one its leading zeros and its number determine. */
  lemma {:induction false} RepOfNum(d: seq<nat>, b: nat)
    requires b >= 2 && AreDigits(d, b)
    ensures Rep(Lead(d), Num(d, b), b) == d
  {
    if d != [] {
      var e, x := d[..|d| - 1], d[|d| - 1];
      RepOfNum(e, b);
      ResidueIsUnique(b, b * Num(e, b) + x, Num(e, b), x);
      assert d == e + [x];
      if Num(d, b) == 0 {
        NoNumber(Num(e, b), b, x);
        assert Big(Num(e, b), b) == [];
        assert Zeros(|d|) == d;
      } else {
        Smaller(Num(d, b), b);
        assert Big(Num(d, b), b) == Big(Num(e, b), b) + [x];
        if Lead(d) == |d| { LeadingOnly(d, b); }
      }
    } else {
      assert Rep(0, 0, b) == [];
    }
  }

  lemma NoNumber(m: nat, b: nat, x: nat)
    requires b * m + x == 0 && b >= 2
    ensures m == 0 && x == 0
  {
    if m >= 1 { MulMono(b, 1, m); }
  }

  lemma LeadingOnly(d: seq<nat>, b: nat)
    requires Lead(d) == |d|
    ensures Num(d, b) == 0
  {
    NumOfZeros(|d|, b);
    assert d == Zeros(|d|);
  }

  // ---------- the alphabet ----------

  /** pszBase58[c]: digits and letters but 0, O, I and l. */
  function Char(c: nat): char
    requires c < 58
  {
    if c < 9 then '1' + c as char
    else if c < 17 then 'A' + (c - 9) as char
    else if c < 22 then 'J' + (c - 17) as char
    else if c < 33 then 'P' + (c - 22) as char
    else if c < 44 then 'a' + (c - 33) as char
    else 'm' + (c - 44) as char
  }

  /** strchr(pszBase58, ch) - pszBase58, or -1. */
  function Index(ch: char): (c: int)
    ensures -1 <= c < 58
  {
    if '1' <= ch <= '9' then ch as int - '1' as int
    else if 'A' <= ch <= 'H' then ch as int - 'A' as int + 9
    else if 'J' <= ch <= 'N' then ch as int - 'J' as int + 17
    else if 'P' <= ch <= 'Z' then ch as int - 'P' as int + 22
    else if 'a' <= ch <= 'k' then ch as int - 'a' as int + 33
    else if 'm' <= ch <= 'z' then ch as int - 'm' as int + 44
    else -1
  }

  lemma AlphabetIsBijection(c: nat, ch: char)
    ensures c < 58 ==> Index(Char(c)) == c
    ensures Index(ch) >= 0 ==> Char(Index(ch)) == ch
  {
  }

  /** The characters ascend: they are the digits, the capitals and the small letters, in this
      order, but for 0, O, I and l. */
  lemma AlphabetAscends(c: nat, d: nat, ch: char)
    ensures c < d < 58 ==> Char(c) < Char(d)
    ensures Index(ch) >= 0 <==> ('0' <= ch <= '9' || 'A' <= ch <= 'Z' || 'a' <= ch <= 'z') && ch !in "0OIl"
  {
  }

  predicate OverAlphabet(s: string) {
    forall i | 0 <= i < |s| :: Index(s[i]) >= 0
  }

  function Chars(d: seq<nat>): (s: string)
    requires AreDigits(d, 58)
    ensures |s| == |d| && forall i | 0 <= i < |d| :: s[i] == Char(d[i])
  {
    if d == [] then [] else Chars(d[..|d| - 1]) + [Char(d[|d| - 1])]
  }

  function Indices(s: string): (d: seq<nat>)
    requires OverAlphabet(s)
    ensures |d| == |s| && forall i | 0 <= i < |s| :: d[i] == Index(s[i])
    ensures AreDigits(d, 58)
  {
    if s == [] then [] else Indices(s[..|s| - 1]) + [Index(s[|s| - 1])]
  }

  function Encoded(vch: seq<byte>): string {
    Chars(Rep(Lead(vch), Num(vch, 256), 58))
  }

  function Decoded(s: string): seq<byte>
    requires OverAlphabet(s)
  {
    AsBytes(Rep(Lead(Indices(s)), Num(Indices(s), 58), 256))
  }

  function AsBytes(d: seq<nat>): (v: seq<byte>)
    requires AreDigits(d, 256)
    ensures v == d
  {
    if d == [] then [] else AsBytes(d[..|d| - 1]) + [d[|d| - 1]]
  }

  /** Decoding inverts encoding on every byte string. */
  lemma DecodedEncoded(vch: seq<byte>)
    ensures OverAlphabet(Encoded(vch)) && Decoded(Encoded(vch)) == vch
  {
    var d := Rep(Lead(vch), Num(vch, 256), 58);
    hide Rep, Num, Lead;
    forall i | 0 <= i < |d| ensures Index(Encoded(vch)[i]) == d[i] { AlphabetIsBijection(d[i], ' '); }
    assert Indices(Encoded(vch)) == d;
    NumOfRep(Lead(vch), Num(vch, 256), 58);
    RepOfNum(vch, 256);
  }

  /** Encoding inverts decoding on every string over the alphabet. */
  lemma EncodedDecoded(s: string)
    requires OverAlphabet(s)
    ensures Encoded(Decoded(s)) == s
  {
    var d := Indices(s);
    hide Rep, Num, Lead, Indices;
    NumOfRep(Lead(d), Num(d, 58), 256);
    RepOfNum(d, 58);
    assert Encoded(Decoded(s)) == Chars(d);
    forall i | 0 <= i < |s| ensures Chars(d)[i] == s[i] { AlphabetIsBijection(0, s[i]); }
  }

  // ---------- big numbers as byte vectors ----------

  function Reverse<T>(s: seq<T>): (r: seq<T>)
    ensures |r| == |s| && forall i | 0 <= i < |s| :: r[i] == s[|s| - 1 - i]
  {
    if s == [] then [] else [s[|s| - 1]] + Reverse(s[..|s| - 1])
  }

  /** CBigNum::setvch: little endian, the high bit of the last byte is the sign. */
  function SetVch(vch: seq<byte>): int {
    if vch != [] && vch[|vch| - 1] >= 0x80 then
      var size: int := Num(Reverse(vch[|vch| - 1 := vch[|vch| - 1] - 0x80]), 256);
      -size
    else Num(Reverse(vch), 256)
  }

  /** CBigNum::getvch of a number that is not negative: a zero byte keeps the sign bit clear. */
  function GetVch(n: nat): seq<byte> {
    var d := AsBytes(Big(n, 256));
    Reverse(if d != [] && d[0] >= 0x80 then [0] + d else d)
  }

  lemma {:induction false} LeadingZero(d: seq<nat>, b: nat)
    ensures Num([0] + d, b) == Num(d, b)
  {
    if d == [] {
      assert ([0] + d)[..0] == [];
      assert b * 0 == 0;
    } else {
      assert ([0] + d)[..|d|] == [0] + d[..|d| - 1];
      LeadingZero(d[..|d| - 1], b);
    }
  }

  /** The extra zero makes the number positive and changes nothing else. */
  lemma SetVchOfReversed(vch: seq<byte>)
    ensures SetVch(Reverse(vch) + [0]) == Num(vch, 256)
  {
    assert Reverse(Reverse(vch) + [0]) == [0] + vch;
    LeadingZero(vch, 256);
  }

  // ---------- encoding and decoding ----------

  /** The digits of a number as text, last one first. */
  function LowFirst(n: nat): string {
    if n == 0 then "" else
      Smaller(n, 58);
      [Char(n % 58)] + LowFirst(n / 58)
  }

  lemma {:induction false} LowFirstReversed(n: nat)
    ensures Reverse(LowFirst(n)) == Chars(Big(n, 58))
  {
    if n > 0 {
      Smaller(n, 58);
      LowFirstReversed(n / 58);
      ReverseFront(Char(n % 58), LowFirst(n / 58));
      assert Big(n, 58)[..|Big(n / 58, 58)|] == Big(n / 58, 58);
    }
  }

  lemma ReverseFront<T>(x: T, t: seq<T>)
    ensures Reverse([x] + t) == Reverse(t) + [x]
  {
  }

  lemma {:induction false} ReverseAppend<T>(s: seq<T>, t: seq<T>)
    ensures Reverse(s + t) == Reverse(t) + Reverse(s)
  {
  }

  function Ones(z: nat): (s: string)
    ensures |s| == z && forall i | 0 <= i < z :: s[i] == Char(0)
  {
    if z == 0 then "" else Ones(z - 1) + [Char(0)]
  }

  method EncodeBase58(vch: seq<byte>) returns (str: string)
    ensures str == Encoded(vch)
  {
    hide Num, Lead, LowFirst, Ones, Encoded;
    var bn := ReadBytes(vch);
    str := EncodeDigits(bn);
    ghost var tail := str;
    var p := 0;
    NoOnes();
    while p < |vch| && vch[p] == 0
      invariant p <= Lead(vch) && str == tail + Ones(p)
    {
      OneMore(p);
      str := str + [Char(0)];
      p := p + 1;
    }
    FinishEncoding(vch, bn, Lead(vch));
    str := Reverse(str);
  }

  lemma NoOnes()
    ensures Ones(0) == ""
  {
  }

  lemma OneMore(p: nat)
    ensures Ones(p + 1) == Ones(p) + [Char(0)]
  {
  }

  /** The extra zero byte keeps the number positive. */
  method ReadBytes(vch: seq<byte>) returns (bn: nat)
    ensures bn == Num(vch, 256)
  {
    hide SetVch, Num;
    SetVchOfReversed(vch);
    var vchTmp := Reverse(vch) + [0];
    bn := SetVch(vchTmp);
  }

  method EncodeDigits(n: nat) returns (str: string)
    ensures str == LowFirst(n)
  {
    str := "";
    var bn := n;
    while bn > 0
      invariant str + LowFirst(bn) == LowFirst(n)
      decreases bn
    {
      Smaller(bn, 58);
      var rem := bn % 58;
      assert str + ([Char(rem)] + LowFirst(bn / 58)) == str + [Char(rem)] + LowFirst(bn / 58);
      bn := bn / 58;
      str := str + [Char(rem)];
    }
    assert str + LowFirst(0) == str;
  }

  lemma FinishEncoding(vch: seq<byte>, n: nat, z: nat)
    requires n == Num(vch, 256) && z == Lead(vch)
    ensures Reverse(LowFirst(n) + Ones(z)) == Encoded(vch)
  {
    hide Num, Lead, Big, LowFirst;
    LowFirstReversed(n);
    ReverseAppend(LowFirst(n), Ones(z));
  }

  predicate IsSpace(ch: char) {
    ch == ' ' || '\t' <= ch <= '\r'
  }

  lemma SpacesAre(ch: char)
    ensures IsSpace(ch) <==> ch in " \t\n\r" || ch as int == 11 || ch as int == 12
  {
  }

  function DropSpaces(s: string): string {
    if s != [] && IsSpace(s[0]) then DropSpaces(s[1..]) else s
  }

  /** How many characters of the alphabet come first. */
  function AlphabetPrefix(s: string): (k: nat)
    ensures k <= |s| && OverAlphabet(s[..k]) && (k < |s| ==> Index(s[k]) < 0)
  {
    if s == [] || Index(s[0]) < 0 then 0 else 1 + AlphabetPrefix(s[1..])
  }

  /** The digits of a string, after white space. */
  function Core(psz: string): (s: string)
    ensures OverAlphabet(s)
  {
    DropSpaces(psz)[..AlphabetPrefix(DropSpaces(psz))]
  }

  /** Nothing but white space may follow the digits. */
  predicate IsWellFormed(psz: string) {
    DropSpaces(DropSpaces(psz)[AlphabetPrefix(DropSpaces(psz))..]) == []
  }

  method SkipSpaces(s: string) returns (r: string)
    ensures r == DropSpaces(s)
  {
    r := s;
    while r != [] && IsSpace(r[0])
      invariant DropSpaces(r) == DropSpaces(s)
      decreases |r|
    {
      r := r[1..];
    }
  }

  /** The first loop of DecodeBase58: reads digits up to the first other character. */
  method DecodeDigits(s: string) returns (bn: nat, p: nat)
    ensures p == AlphabetPrefix(s) && bn == Num(Indices(s[..p]), 58)
  {
    hide AlphabetPrefix, Indices, Num;
    ghost var k := AlphabetPrefix(s);
    bn, p := 0, 0;
    NoIndex(s);
    while p < |s|
      invariant p <= k && bn == Num(Indices(s[..p]), 58)
      invariant p < |s| ==> p < k || Index(s[p]) < 0
    {
      var c := Index(s[p]);
      if c < 0 {
        break;
      }
      NextIndex(s, p, k);
      bn := bn * 58 + c;
      p := p + 1;
    }
    assert p == k;
  }

  lemma NoIndex(s: string)
    ensures OverAlphabet(s[..0]) && Num(Indices(s[..0]), 58) == 0
  {
    assert Indices(s[..0]) == [];
  }

  lemma NextIndex(s: string, p: nat, k: nat)
    requires p < k <= |s| && OverAlphabet(s[..k])
    ensures OverAlphabet(s[..p]) && OverAlphabet(s[..p + 1]) && Index(s[p]) >= 0
    ensures Num(Indices(s[..p + 1]), 58) == 58 * Num(Indices(s[..p]), 58) + Index(s[p])
  {
    assert s[p] == s[..k][p];
    assert s[..p + 1][..p] == s[..p];
    assert Indices(s[..p + 1]) == Indices(s[..p]) + [Index(s[p])];
    assert (Indices(s[..p]) + [Index(s[p])])[..p] == Indices(s[..p]);
  }

  /** The number's bytes, least significant first, without a sign byte. */
  method TrimmedBytes(bn: nat) returns (vchTmp: seq<byte>)
    ensures Reverse(vchTmp) == Big(bn, 256)
  {
    TrimSign(bn);
    hide Big, GetVch;
    vchTmp := GetVch(bn);
    if |vchTmp| >= 2 && vchTmp[|vchTmp| - 1] == 0 && vchTmp[|vchTmp| - 2] >= 0x80 {
      vchTmp := vchTmp[..|vchTmp| - 1];
    }
  }

  method CountOnes(s: string) returns (nLeadingZeros: nat)
    ensures nLeadingZeros == Lead(Indices(s[..AlphabetPrefix(s)]))
  {
    hide AlphabetPrefix, Indices, Lead;
    LeadingOnes(s, AlphabetPrefix(s));
    ghost var z := Lead(Indices(s[..AlphabetPrefix(s)]));
    nLeadingZeros := 0;
    while nLeadingZeros < |s| && s[nLeadingZeros] == Char(0)
      invariant nLeadingZeros <= z
    {
      nLeadingZeros := nLeadingZeros + 1;
    }
  }

  method DecodeBase58(psz: string) returns (ok: bool, vchRet: seq<byte>)
    ensures ok <==> IsWellFormed(psz)
    ensures vchRet == if ok then Decoded(Core(psz)) else []
  {
    hide DropSpaces, AlphabetPrefix, Num, Lead, Big, Zeros, Indices, AsBytes;
    var s := SkipSpaces(psz);
    var bn, p := DecodeDigits(s);
    var rest := SkipSpaces(s[p..]);
    if rest != [] {
      return false, [];
    }
    var vchTmp := TrimmedBytes(bn);
    var nLeadingZeros := CountOnes(s);
    vchRet := AsBytes(Zeros(nLeadingZeros)) + Reverse(vchTmp);
    ok := true;
    assert vchRet == Rep(Lead(Indices(Core(psz))), Num(Indices(Core(psz)), 58), 256);
  }

  /** The sign byte is recognised, and nothing else is taken for one. */
  lemma TrimSign(n: nat)
    ensures
      var v := GetVch(n);
      var trimmed := if |v| >= 2 && v[|v| - 1] == 0 && v[|v| - 2] >= 0x80 then v[..|v| - 1] else v;
      Reverse(trimmed) == Big(n, 256)
  {
    hide Big, Num, AsBytes, Reverse;
    BigRoundTrip(n, 256);
    TrimBytes(AsBytes(Big(n, 256)));
  }

  lemma TrimBytes(d: seq<byte>)
    requires d != [] ==> d[0] != 0
    ensures
      var v := Reverse(if d != [] && d[0] >= 0x80 then [0] + d else d);
      var trimmed := if |v| >= 2 && v[|v| - 1] == 0 && v[|v| - 2] >= 0x80 then v[..|v| - 1] else v;
      Reverse(trimmed) == d
  {
    hide Reverse;
    if d != [] && d[0] >= 0x80 {
      assert Reverse([0] + d)[..|d|] == Reverse(d);
    }
    assert Reverse(Reverse(d)) == d;
  }

  /** Leading 1s of the text are leading zeros of its digits. */
  lemma LeadingOnes(s: string, k: nat)
    requires k <= |s| && OverAlphabet(s[..k]) && (k < |s| ==> Index(s[k]) < 0)
    ensures
      var z := Lead(Indices(s[..k]));
      (forall i | 0 <= i < z :: s[i] == Char(0)) && (z < |s| ==> s[z] != Char(0))
  {
    var d := Indices(s[..k]);
    hide Indices;
    forall i | 0 <= i < k ensures d[i] == 0 <==> s[i] == Char(0) { AlphabetIsBijection(0, s[i]); }
  }

  // ---------- with a checksum ----------

  /** EncodeBase58Check: four bytes of the hash go last. */
  method EncodeBase58Check(vchIn: seq<byte>, Hash: seq<byte> -> seq<byte>) returns (str: string)
    requires |Hash(vchIn)| >= 4
    ensures str == Encoded(vchIn + Hash(vchIn)[..4])
  {
    str := EncodeBase58(vchIn + Hash(vchIn)[..4]);
  }

  /** The bytes carry their own checksum. */
  predicate Checks(vch: seq<byte>, Hash: seq<byte> -> seq<byte>) {
    |vch| >= 4 && vch[|vch| - 4..] <= Hash(vch[..|vch| - 4])
  }

  /** DecodeBase58Check: gives back the bytes without their checksum, or none. */
  method DecodeBase58Check(psz: string, Hash: seq<byte> -> seq<byte>) returns (ok: bool, vchRet: seq<byte>)
    requires forall v: seq<byte> :: |Hash(v)| >= 4
    ensures ok <==> IsWellFormed(psz) && Checks(Decoded(Core(psz)), Hash)
    ensures vchRet == if ok then Decoded(Core(psz))[..|Decoded(Core(psz))| - 4] else []
  {
    hide Decoded, Core, IsWellFormed;
    ok, vchRet := DecodeBase58(psz);
    if !ok {
      return;
    }
    if |vchRet| < 4 {
      return false, [];
    }
    var hash := Hash(vchRet[..|vchRet| - 4]);
    assert vchRet[|vchRet| - 4..] <= hash <==> hash[..4] == vchRet[|vchRet| - 4..];
    if hash[..4] != vchRet[|vchRet| - 4..] {
      return false, [];
    }
    vchRet := vchRet[..|vchRet| - 4];
  }

  predicate AllSpaces(s: string) {
    forall i | 0 <= i < |s| :: IsSpace(s[i])
  }

  lemma {:induction false} SpacesGo(a: string, s: string)
    requires AllSpaces(a) && (s != [] ==> !IsSpace(s[0]))
    ensures DropSpaces(a + s) == s
  {
    if a == [] {
      assert a + s == s;
    } else {
      assert (a + s)[1..] == a[1..] + s;
      SpacesGo(a[1..], s);
    }
  }

  lemma {:induction false} PrefixEnds(s: string, b: string)
    requires OverAlphabet(s) && (b != [] ==> Index(b[0]) < 0)
    ensures AlphabetPrefix(s + b) == |s|
  {
    if s == [] {
      assert s + b == b;
    } else {
      assert (s + b)[1..] == s[1..] + b;
      PrefixEnds(s[1..], b);
    }
  }

  /** White space around a text over the alphabet does not matter. */
  lemma SpacesDoNotMatter(a: string, s: string, b: string)
    requires AllSpaces(a) && AllSpaces(b) && OverAlphabet(s)
    ensures IsWellFormed(a + s + b) && Core(a + s + b) == s
  {
    assert forall ch | IsSpace(ch) :: Index(ch) < 0;
    assert b != [] ==> IsSpace(b[0]);
    if s == [] {
      assert AllSpaces(a + b) && a + s + b == a + b + [];
      SpacesGo(a + b, []);
    } else {
      assert a + s + b == a + (s + b) && (s + b)[0] == s[0];
      SpacesGo(a, s + b);
      PrefixEnds(s, b);
      assert (s + b)[..|s|] == s && (s + b)[|s|..] == b + [];
      SpacesGo(b, []);
    }
  }

  /** The checksummed pair returns every byte string, for any hash. */
  method CheckedRoundTrip(vchIn: seq<byte>, Hash: seq<byte> -> seq<byte>) returns (ok: bool, vchRet: seq<byte>)
    requires forall v: seq<byte> :: |Hash(v)| >= 4
    ensures ok && vchRet == vchIn
  {
    hide Decoded, Core, IsWellFormed, Encoded;
    var vch := vchIn + Hash(vchIn)[..4];
    DecodedEncoded(vch);
    var str := EncodeBase58Check(vchIn, Hash);
    SpacesDoNotMatter([], str, []);
    assert [] + str + [] == str;
    assert vch[..|vch| - 4] == vchIn && vch[|vch| - 4..] == Hash(vchIn)[..4];
    ok, vchRet := DecodeBase58Check(str, Hash);
  }

  /** And what decodes with its checksum is encoded to the same digits again. */
  method CheckedReturn(psz: string, Hash: seq<byte> -> seq<byte>) returns (ok: bool, str: string)
    requires forall v: seq<byte> :: |Hash(v)| >= 4
    ensures ok <==> IsWellFormed(psz) && Checks(Decoded(Core(psz)), Hash)
    ensures ok ==> str == Core(psz)
  {
    hide Decoded, Core, IsWellFormed, Encoded;
    var vch;
    ok, vch := DecodeBase58Check(psz, Hash);
    str := "";
    if ok {
      str := EncodeBase58Check(vch, Hash);
      SameChecksum(Decoded(Core(psz)), Hash);
      EncodedDecoded(Core(psz));
    }
  }

  lemma SameChecksum(vch: seq<byte>, Hash: seq<byte> -> seq<byte>)
    requires Checks(vch, Hash) && |Hash(vch[..|vch| - 4])| >= 4
    ensures vch[..|vch| - 4] + Hash(vch[..|vch| - 4])[..4] == vch
  {
    var k := |vch| - 4;
    assert Hash(vch[..k])[..4] == vch[k..];
  }
}
