/** The compact form of amounts (main.cpp, CTxOutCompressor): a bijection between numbers that
    sends round amounts to small ones. */
module AmountCodec {
  import opened Arithmetic

  const UINT64 := 0x1_0000_0000_0000_0000

  function Pow10(e: nat): (r: nat)
    ensures r > 0
  {
    if e == 0 then 1 else 10 * Pow10(e - 1)
  }

  /** The decimal exponent and the rest of a compressed amount. */
  function Exponent(x: nat): (e: nat)
    requires x > 0
    ensures e <= 9
  {
    (x - 1) % 10
  }

  function Mantissa(x: nat): nat
    requires x > 0
  {
    var y := (x - 1) / 10;
    if Exponent(x) < 9 then y / 9 * 10 + y % 9 + 1 else y + 1
  }

  /** The amount that x stands for. */
  function Decompressed(x: nat): nat {
    if x == 0 then 0 else Mantissa(x) * Pow10(Exponent(x))
  }

  lemma MantissaFits(x: nat)
    requires x > 0
    ensures Mantissa(x) > 0 && (Exponent(x) < 9 ==> Mantissa(x) % 10 != 0)
  {
  }

  lemma PartsDetermine(x: nat, y: nat)
    requires x > 0 && y > 0 && Exponent(x) == Exponent(y) && Mantissa(x) == Mantissa(y)
    ensures x == y
  {
    var a, b := (x - 1) / 10, (y - 1) / 10;
    if Exponent(x) < 9 {
      assert Mantissa(x) == a / 9 * 10 + a % 9 + 1 && Mantissa(y) == b / 9 * 10 + b % 9 + 1;
      assert a / 9 == b / 9;
    }
  }

  lemma TenTimes(x: int, y: int)
    ensures (10 * x) * y == 10 * (x * y) == x * (10 * y)
  {
  }

  lemma {:induction false} Pow10Sum(a: nat, b: nat)
    ensures Pow10(a + b) == Pow10(a) * Pow10(b)
  {
    if a > 0 {
      Pow10Sum(a - 1, b);
      TenTimes(Pow10(a - 1), Pow10(b));
    }
  }

  /** A factor 10 moves between the two parts. */
  lemma MoveTen(m: nat, e: nat)
    ensures m * Pow10(e + 1) == 10 * m * Pow10(e)
  {
    TenTimes(m, Pow10(e));
  }

  lemma CancelPower(m: nat, p: nat, k: nat)
    requires p > 0 && m * p == k * p
    ensures m == k
  {
    if m > k { MulMono(p, k + 1, m); }
    if m < k { MulMono(p, m + 1, k); }
  }

  /** A mantissa with a larger exponent ends in 0. */
  lemma LargerExponent(m: nat, e: nat, k: nat, f: nat)
    requires e < f && m * Pow10(e) == k * Pow10(f)
    ensures m % 10 == 0
  {
    hide Pow10;
    var g := f - e - 1;
    Pow10Sum(f - e, e);
    NextPower(g);
    Reassociate(k, Pow10(f - e), Pow10(e));
    CancelPower(m, Pow10(e), k * Pow10(f - e));
    TenTimes(k, Pow10(g));
  }

  lemma NextPower(g: nat)
    ensures Pow10(g + 1) == 10 * Pow10(g)
  {
  }

  lemma Reassociate(k: int, a: int, b: int)
    ensures k * (a * b) == k * a * b
  {
  }

  /** Different numbers stand for different amounts. */
  lemma DecompressedIsInjective(x: nat, y: nat)
    requires Decompressed(x) == Decompressed(y)
    ensures x == y
  {
    if x > 0 { MantissaFits(x); MulMono(Pow10(Exponent(x)), 1, Mantissa(x)); }
    if y > 0 { MantissaFits(y); MulMono(Pow10(Exponent(y)), 1, Mantissa(y)); }
    if x > 0 && y > 0 {
      hide Decompressed, Mantissa;
      if Exponent(x) < Exponent(y) {
        LargerExponent(Mantissa(x), Exponent(x), Mantissa(y), Exponent(y));
      } else if Exponent(y) < Exponent(x) {
        LargerExponent(Mantissa(y), Exponent(y), Mantissa(x), Exponent(x));
      } else {
        CancelPower(Mantissa(x), Pow10(Exponent(x)), Mantissa(y));
        PartsDetermine(x, y);
      }
    }
  }

  /** The compact form of n * 10^e. */
  function CompressedFrom(n: nat, e: nat): nat
    requires n > 0 && e <= 9
  {
    if n % 10 == 0 && e < 9 then CompressedFrom(n / 10, e + 1)
    else if e < 9 then 1 + (n / 10 * 9 + n % 10 - 1) * 10 + e
    else 1 + (n - 1) * 10 + 9
  }

  function Compressed(n: nat): nat {
    if n == 0 then 0 else CompressedFrom(n, 0)
  }

  lemma CompressParts(n: nat, e: nat)
    requires e < 9 && n % 10 != 0
    ensures var x := 1 + (n / 10 * 9 + n % 10 - 1) * 10 + e; x > 0 && Exponent(x) == e && Mantissa(x) == n
  {
    var q, d := n / 10, n % 10;
    var y := q * 9 + d - 1;
    ResidueIsUnique(10, y * 10 + e, y, e);
    ResidueIsUnique(9, y, q, d - 1);
  }

  lemma CompressWhole(n: nat)
    requires n > 0
    ensures var x := 1 + (n - 1) * 10 + 9; Exponent(x) == 9 && Mantissa(x) == n
  {
    ResidueIsUnique(10, (n - 1) * 10 + 9, n - 1, 9);
  }

  lemma {:induction false} FromInverts(n: nat, e: nat)
    requires n > 0 && e <= 9
    ensures CompressedFrom(n, e) > 0 && Decompressed(CompressedFrom(n, e)) == n * Pow10(e)
    decreases 9 - e
  {
    hide Exponent, Mantissa;
    if n % 10 == 0 && e < 9 {
      FromInverts(n / 10, e + 1);
      MoveTen(n / 10, e);
    } else if e < 9 {
      CompressParts(n, e);
    } else {
      CompressWhole(n);
    }
  }

  lemma {:induction false} FromIsSmall(n: nat, e: nat)
    requires n > 0 && e <= 9
    ensures CompressedFrom(n, e) <= 10 * n + 100
    decreases 9 - e
  {
    if n % 10 == 0 && e < 9 { FromIsSmall(n / 10, e + 1); }
  }

  /** Compression and decompression are inverse to each other, on all numbers. */
  lemma CompressedIsBijection(n: nat, x: nat)
    ensures Decompressed(Compressed(n)) == n && Compressed(Decompressed(x)) == x
  {
    forall m: nat ensures Decompressed(Compressed(m)) == m {
      if m > 0 {
        FromInverts(m, 0);
        WholePower(m);
      }
    }
    DecompressedIsInjective(Compressed(Decompressed(x)), x);
  }

  lemma CompressedIsSmall(n: nat)
    ensures Compressed(n) <= 10 * n + 100
  {
    if n > 0 { FromIsSmall(n, 0); }
  }

  /** CompressAmount, in 64-bit arithmetic: only the product with ten can wrap. */
  method CompressAmount(nAmount: nat) returns (x: nat)
    requires nAmount < UINT64
    ensures x == Compressed(nAmount) % UINT64
    ensures nAmount < UINT64 / 16 ==> x == Compressed(nAmount)
  {
    CompressedIsSmall(nAmount);
    var n := nAmount;
    if n == 0 {
      x := 0;
    } else {
      var e := 0;
      while n % 10 == 0 && e < 9
        invariant 0 < n <= nAmount && 0 <= e <= 9 && CompressedFrom(n, e) == Compressed(nAmount)
        decreases n
      {
        n := n / 10;
        e := e + 1;
      }
      if e < 9 {
        var d := n % 10;
        n := n / 10;
        assert n * 9 + d < UINT64;
        x := 1 + (n * 9 + d - 1) * 10 + e;
      } else {
        x := 1 + (n - 1) * 10 + 9;
      }
    }
    assert x == Compressed(nAmount);
    x := x % UINT64;
  }

  /** A product modulo m needs its factor modulo m only. */
  lemma FactorModulo(a: nat, p: nat, m: nat)
    requires m > 0
    ensures a % m * p % m == a * p % m
  {
    var q := a / m;
    assert a == m * q + a % m;
    assert a * p - a % m * p == m * (q * p);
    DividesByQuotient(m, a * p - a % m * p, q * p);
    SameResidue(m, a * p, a % m * p);
  }

  /** DecompressAmount, in 64-bit arithmetic. */
  method DecompressAmount(xIn: nat) returns (nAmount: nat)
    requires xIn < UINT64
    ensures nAmount == Decompressed(xIn) % UINT64
  {
    var x := xIn;
    if x == 0 {
      return 0;
    }
    x := x - 1;
    var e := x % 10;
    x := x / 10;
    var n := 0;
    if e < 9 {
      var d := x % 9 + 1;
      x := x / 9;
      n := x * 10 + d;
    } else {
      n := x + 1;
    }
    assert n == Mantissa(xIn) && e == Exponent(xIn);
    ghost var amount := Decompressed(xIn);
    hide *;
    while e > 0
      invariant 0 <= n < UINT64 && 0 <= e && n * Pow10(e) % UINT64 == amount % UINT64
    {
      MoveTen(n, e - 1);
      FactorModulo(10 * n, Pow10(e - 1), UINT64);
      n := n * 10 % UINT64;
      e := e - 1;
    }
    nAmount := n;
    WholePower(n);
  }

  lemma WholePower(n: nat)
    ensures n * Pow10(0) == n
  {
  }
}
