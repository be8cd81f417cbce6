/** What 2^((p - 1) / 2) is modulo an odd prime p, on which the primality tests of the proof of
    work rest (prime.cpp). With m = (p - 1) / 2 the product 2 * 4 * .. * 2m is 2^m * m!; modulo p
    its factors above p / 2 are the negated odd numbers up to m, so it is m! with a sign, too. */
module TwoModPrime {
  import opened Arithmetic

  function Fact(n: nat): (r: nat)
    ensures r > 0
  {
    if n == 0 then 1 else n * Fact(n - 1)
  }

  /** 2 * 4 * .. * 2j. */
  function Evens(j: nat): nat {
    if j == 0 then 1 else (2 * j) * Evens(j - 1)
  }

  /** 1 * 3 * .. * (2j - 1). */
  function Odds(j: nat): nat {
    if j == 0 then 1 else (2 * j - 1) * Odds(j - 1)
  }

  /** The j highest factors of 2 * 4 * .. * 2m. */
  function HighEvens(m: nat, j: nat): nat
    requires j <= m
  {
    if j == 0 then 1 else (2 * (m - (j - 1))) * HighEvens(m, j - 1)
  }

  function Sign(j: nat): int {
    if j % 2 == 0 then 1 else -1
  }

  lemma {:induction false} EvensArePowers(m: nat)
    ensures Evens(m) == Pow2(m) * Fact(m)
  {
    if m > 0 {
      EvensArePowers(m - 1);
      Regroup4(2, m, Pow2(m - 1), Fact(m - 1));
    }
  }

  lemma Regroup4(a: int, b: int, c: int, d: int)
    ensures (a * b) * (c * d) == (a * c) * (b * d)
  {
  }

  lemma {:induction false} FactSplits(m: nat)
    ensures Fact(m) == Evens(m / 2) * Odds((m + 1) / 2)
  {
    if m > 0 {
      FactSplits(m - 1);
      var e, o := Evens((m - 1) / 2), Odds(m / 2);
      if m % 2 == 0 {
        assert Evens(m / 2) == m * e && (m + 1) / 2 == m / 2;
        Associate(m, e, o);
      } else {
        assert Odds((m + 1) / 2) == m * o && (m - 1) / 2 == m / 2;
        Associate(m, e, o);
      }
    }
  }

  lemma Associate(m: int, e: int, o: int)
    ensures m * (e * o) == (m * e) * o == e * (m * o)
  {
  }

  lemma {:induction false} EvensSplit(m: nat, j: nat)
    requires j <= m
    ensures Evens(m) == Evens(m - j) * HighEvens(m, j)
  {
    if j > 0 {
      EvensSplit(m, j - 1);
      var k := m - (j - 1);
      assert Evens(k) == (2 * k) * Evens(k - 1);
      Associate(2 * k, Evens(k - 1), HighEvens(m, j - 1));
    }
  }

  /** Modulo p = 2m + 1 the high factors are the negated low odd numbers. */
  lemma {:induction false} HighEvensAreOdds(p: nat, m: nat, j: nat)
    requires p == 2 * m + 1 && j <= m
    ensures Divides(p, HighEvens(m, j) - Sign(j) * Odds(j))
  {
    if j == 0 {
      DividesByQuotient(p, 0, 0);
    } else {
      HighEvensAreOdds(p, m, j - 1);
      var u, o, k := HighEvens(m, j - 1), Sign(j - 1) * Odds(j - 1), 2 * j - 1;
      DividesByQuotient(p, p, 1);
      hide Divides;
      DividesLinear(p, u - o, p, -k, u);
      assert HighEvens(m, j) == (p - k) * u;
      assert Sign(j) * Odds(j) == -k * o by { SignedOdds(j); }
      NegatedFactor(p, k, u, o);
    }
  }

  lemma SignedOdds(j: nat)
    requires j > 0
    ensures Sign(j) * Odds(j) == -(2 * j - 1) * (Sign(j - 1) * Odds(j - 1))
  {
    var k, o, s := 2 * j - 1, Odds(j - 1), Sign(j - 1);
    assert Sign(j) == -s && Odds(j) == k * o;
    hide Odds, Sign;
    MoveSign(k, o, s);
  }

  lemma MoveSign(k: int, o: int, s: int)
    ensures -s * (k * o) == -k * (s * o)
  {
  }

  lemma NegatedFactor(p: int, k: int, u: int, o: int)
    ensures -k * (u - o) + u * p == (p - k) * u - (-k * o)
  {
  }

  /** A prime above m does not divide m!. */
  lemma {:induction false} FactIsPrimeTo(p: nat, m: nat)
    requires IsPrime(p) && m < p
    ensures !Divides(p, Fact(m))
  {
    if m == 0 {
      if Divides(p, 1) { DividesBounded(p, 1); }
    } else {
      FactIsPrimeTo(p, m - 1);
      if Divides(p, m * Fact(m - 1)) {
        PrimeDividesProduct(p, m, Fact(m - 1));
        DividesBounded(p, m);
      }
    }
  }

  /** 2^m is 1 or -1 modulo p by the number of factors above p / 2. */
  lemma PowerIsSign(p: nat, m: nat)
    requires IsPrime(p) && p == 2 * m + 1
    ensures Divides(p, Pow2(m) - Sign((m + 1) / 2))
  {
    var j := (m + 1) / 2;
    assert m - j == m / 2;
    EvensArePowers(m);
    FactSplits(m);
    EvensSplit(m, j);
    HighEvensAreOdds(p, m, j);
    hide Divides, Evens, Odds, HighEvens, Fact, Pow2, Sign, IsPrime;
    var e, u, o, s := Evens(m / 2), HighEvens(m, j), Odds(j), Sign(j);
    DividesLinear(p, u - s * o, 0, e, 0) by { DividesZero(p); }
    SignOut(e, u, o, s, Pow2(m), Fact(m));
    FactIsPrimeTo(p, m);
    PrimeDividesProduct(p, Fact(m), Pow2(m) - s);
  }

  lemma DividesZero(p: int)
    requires p != 0
    ensures Divides(p, 0)
  {
  }

  lemma SignOut(e: int, u: int, o: int, s: int, t: int, f: int)
    requires t * f == e * u && f == e * o
    ensures e * (u - s * o) + 0 * 0 == f * (t - s)
  {
    assert e * (s * o) == s * (e * o);
  }

  lemma SignByMod8(p: nat, m: nat)
    requires p == 2 * m + 1
    ensures Sign((m + 1) / 2) == if p % 8 == 7 || p % 8 == 1 then 1 else -1
  {
    var q, r := m / 4, m % 4;
    var half := if r == 0 then 0 else if r == 3 then 2 else 1;
    ResidueIsUnique(8, p, q, 2 * r + 1);
    ResidueIsUnique(2, m + 1, 2 * q + half, if r % 2 == 0 then 1 else 0);
    ResidueIsUnique(2, 2 * q + half, q + half / 2, half % 2);
  }
}
