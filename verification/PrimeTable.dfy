/** The table of small primes (prime.cpp, GeneratePrimeTable). */
module PrimeTable {
  import opened Arithmetic

  /** n has a divisor below f that is no larger than its square root. */
  ghost predicate Struck(f: nat, n: nat) {
    exists d: nat :: StrikesOut(d, f, n)
  }

  ghost predicate StrikesOut(d: nat, f: nat, n: nat) {
    2 <= d < f && d * d <= n && Divides(d, n)
  }

  ghost predicate Increasing(s: seq<nat>) {
    forall i, j | 0 <= i < j < |s| :: s[i] < s[j]
  }

  /** Exactly the primes below a limit, in order. */
  ghost predicate IsPrimeTable(vPrimes: seq<nat>, limit: nat) {
    Increasing(vPrimes) && forall n: nat :: n in vPrimes <==> IsPrime(n) && n < limit
  }

  lemma Associate(d: nat, a: nat, b: nat)
    ensures (d * a) * b == d * (a * b)
  {
  }

  /** Multiples of a struck number are struck already. */
  lemma SkipStruck(f: nat, n: nat)
    requires f >= 2 && Struck(f, f) && f * f <= n && Divides(f, n)
    ensures Struck(f, n)
  {
    var d: nat :| StrikesOut(d, f, f);
    SkipOne(f, n, d);
    assert StrikesOut(d, f, n);
  }

  lemma SkipOne(f: nat, n: nat, d: nat)
    requires StrikesOut(d, f, f) && f * f <= n && Divides(f, n)
    ensures Divides(d, n) && d * d <= n
  {
    var a, b := f / d, n / f;
    assert f == d * a && n == f * b;
    hide Divides;
    Associate(d, a, b);
    DividesByQuotient(d, n, a * b);
    MulMono(f, 1, f);
    MulMono(d, d, f);
    MulMono(f, d, f);
  }

  lemma NothingStruck(n: nat)
    ensures !Struck(2, n)
  {
  }

  lemma StruckStep(f: nat, n: nat)
    requires f >= 2
    ensures Struck(f + 1, n) <==> Struck(f, n) || (f * f <= n && Divides(f, n))
  {
    if Struck(f + 1, n) {
      var d: nat :| StrikesOut(d, f + 1, n);
      if d < f { assert StrikesOut(d, f, n); }
    }
    if Struck(f, n) {
      var d: nat :| StrikesOut(d, f, n);
      assert StrikesOut(d, f + 1, n);
    }
    if f * f <= n && Divides(f, n) {
      assert StrikesOut(f, f + 1, n);
    }
  }

  /** A composite number has a divisor no larger than its square root. */
  lemma SmallDivisor(n: nat, d: nat) returns (e: nat)
    requires 1 < d < n && Divides(d, n)
    ensures 1 < e < n && e * e <= n && Divides(e, n)
  {
    var q := n / d;
    assert n == d * q;
    assert q > 1;
    if d <= q {
      e := d;
      MulMono(d, d, q);
    } else {
      e := q;
      DividesByQuotient(q, n, d);
      MulMono(q, q, d);
      assert q < n by { MulMono(q, 2, d); }
    }
  }

  lemma StruckIsComposite(f: nat, limit: nat, n: nat)
    requires f >= 2 && f * f >= limit && 2 <= n < limit
    ensures Struck(f, n) <==> !IsPrime(n)
  {
    if Struck(f, n) {
      var d: nat :| StrikesOut(d, f, n);
      MulMono(d, 2, d);
    }
    if !IsPrime(n) {
      var d: nat :| 1 < d < n && Divides(d, n);
      var e := SmallDivisor(n, d);
      if e >= f {
        MulMono(e, f, e);
        MulMono(f, f, e);
      }
      assert StrikesOut(e, f, n);
    }
  }

  /** Every multiple of f from n on is either n or a multiple from n + f on. */
  lemma NextMultiple(f: nat, n: nat, m: nat)
    requires f >= 1 && Divides(f, n) && Divides(f, m) && n < m
    ensures n + f <= m
  {
    DividesLinear(f, m, n, 1, -1);
    assert m - n == f * ((m - n) / f);
    MulMono(f, 1, (m - n) / f);
  }

  /** Strikes out the multiples of nFactor from its square on. */
  method StrikeMultiples(vfComposite: array<bool>, nFactor: nat)
    requires 2 <= nFactor && nFactor * nFactor < vfComposite.Length
    modifies vfComposite
    ensures forall n | 0 <= n < vfComposite.Length ::
              vfComposite[n] <==> old(vfComposite[n]) || (nFactor * nFactor <= n && Divides(nFactor, n))
  {
    var nComposite := nFactor * nFactor;
    DividesByQuotient(nFactor, nComposite, nFactor);
    hide Divides;
    while nComposite < vfComposite.Length
      invariant nFactor * nFactor <= nComposite && Divides(nFactor, nComposite)
      invariant forall n | 0 <= n < vfComposite.Length ::
                  vfComposite[n] <==> old(vfComposite[n]) || (nFactor * nFactor <= n < nComposite && Divides(nFactor, n))
    {
      vfComposite[nComposite] := true;
      forall m | nComposite < m && Divides(nFactor, m) ensures nComposite + nFactor <= m {
        NextMultiple(nFactor, nComposite, m);
      }
      DividesSum(nFactor, nComposite);
      nComposite := nComposite + nFactor;
    }
  }

  lemma DividesSum(f: nat, n: nat)
    requires f >= 1 && Divides(f, n)
    ensures Divides(f, n + f)
  {
    assert n + f == f * (n / f + 1);
    DividesByQuotient(f, n + f, n / f + 1);
  }

  lemma EmptyTable()
    ensures IsPrimeTable([], 2)
  {
  }

  lemma ShorterTable(vPrimes: seq<nat>, n: nat, limit: nat)
    requires IsPrimeTable(vPrimes, n) && limit <= n && (n <= limit || vPrimes == [])
    ensures IsPrimeTable(vPrimes, limit)
  {
    hide IsPrime;
    forall m: nat | IsPrime(m) && m < limit ensures m in vPrimes {
    }
  }

  lemma NextEntry(vPrimes: seq<nat>, n: nat)
    requires IsPrimeTable(vPrimes, n)
    ensures IsPrimeTable(if IsPrime(n) then vPrimes + [n] else vPrimes, n + 1)
  {
    hide IsPrime;
    if IsPrime(n) {
      var w := vPrimes + [n];
      forall i, j | 0 <= i < j < |w| ensures w[i] < w[j] {
        assert w[i] in vPrimes;
      }
      forall m: nat ensures m in w <==> IsPrime(m) && m < n + 1 {
        assert m in w <==> m in vPrimes || m == n;
      }
    }
  }

  method GeneratePrimeTable(nPrimeTableLimit: nat) returns (vPrimes: seq<nat>)
    ensures IsPrimeTable(vPrimes, nPrimeTableLimit)
  {
    hide Struck, IsPrime, Divides, IsPrimeTable;
    var vfComposite := new bool[nPrimeTableLimit](_ => false);
    var nFactor := 2;
    forall n | 0 <= n < nPrimeTableLimit ensures !Struck(2, n) {
      NothingStruck(n);
    }
    while nFactor * nFactor < nPrimeTableLimit
      invariant nFactor >= 2
      invariant forall n | 0 <= n < nPrimeTableLimit :: vfComposite[n] <==> Struck(nFactor, n)
      decreases nPrimeTableLimit - nFactor
    {
      assert nFactor < nPrimeTableLimit by { MulMono(nFactor, 1, nFactor); }
      forall n | 0 <= n < nPrimeTableLimit
        ensures Struck(nFactor + 1, n) <==> Struck(nFactor, n) || (nFactor * nFactor <= n && Divides(nFactor, n))
        ensures Struck(nFactor, nFactor) && nFactor * nFactor <= n && Divides(nFactor, n) ==> Struck(nFactor, n)
      {
        StruckStep(nFactor, n);
        if Struck(nFactor, nFactor) && nFactor * nFactor <= n && Divides(nFactor, n) { SkipStruck(nFactor, n); }
      }
      if !vfComposite[nFactor] {
        StrikeMultiples(vfComposite, nFactor);
      }
      nFactor := nFactor + 1;
    }
    vPrimes := [];
    var n := 2;
    EmptyTable();
    while n < nPrimeTableLimit
      invariant n >= 2 && forall m | 0 <= m < nPrimeTableLimit :: vfComposite[m] <==> Struck(nFactor, m)
      invariant IsPrimeTable(vPrimes, n) && (n <= nPrimeTableLimit || vPrimes == [])
    {
      StruckIsComposite(nFactor, nPrimeTableLimit, n);
      NextEntry(vPrimes, n);
      if !vfComposite[n] {
        vPrimes := vPrimes + [n];
      }
      n := n + 1;
    }
    ShorterTable(vPrimes, n, nPrimeTableLimit);
  }

  // ---------- the node's table ----------

  /** None of d, d + 2, ..., d + 14 divides n. */
  predicate NoneOfEight(n: nat, d: nat) {
    && !Divides(d, n) && !Divides(d + 2, n) && !Divides(d + 4, n) && !Divides(d + 6, n)
    && !Divides(d + 8, n) && !Divides(d + 10, n) && !Divides(d + 12, n) && !Divides(d + 14, n)
  }

  /** Trial division by 3 and the odd numbers after it, sixteen at a time. */
  predicate Undivided(n: nat, blocks: nat) {
    blocks == 0
    || (NoneOfEight(n, 32 * blocks - 29) && NoneOfEight(n, 32 * blocks - 13) && Undivided(n, blocks - 1))
  }

  lemma EightMeans(n: nat, from: nat, j: nat)
    requires NoneOfEight(n, from) && j < 8
    ensures !Divides(from + 2 * j, n)
  {
    hide Divides;
  }

  lemma {:induction false} UndividedMeans(n: nat, blocks: nat, j: nat)
    requires Undivided(n, blocks) && j < 16 * blocks
    ensures !Divides(3 + 2 * j, n)
  {
    hide NoneOfEight, Divides;
    var before := 16 * (blocks - 1);
    if j < before {
      UndividedMeans(n, blocks - 1, j);
    } else if j < before + 8 {
      EightMeans(n, 32 * blocks - 29, j - before);
    } else {
      EightMeans(n, 32 * blocks - 13, j - before - 8);
    }
  }

  lemma TrialDivision(n: nat, blocks: nat, hi: nat)
    requires n % 2 == 1 && hi == 32 * blocks + 3 && 2 <= n < hi * hi && Undivided(n, blocks)
    ensures IsPrime(n)
  {
    hide Undivided, Divides;
    forall d: nat | 1 < d < n ensures !Divides(d, n) {
      if Divides(d, n) {
        var e := SmallDivisor(n, d);
        if e >= hi {
          MulMono(e, hi, e);
          MulMono(hi, hi, e);
        }
        OddFactor(n, e);
        UndividedMeans(n, blocks, e / 2 - 1);
      }
    }
  }

  lemma OddFactor(n: nat, e: nat)
    requires n % 2 == 1 && e > 0 && Divides(e, n)
    ensures e % 2 == 1
  {
    var q := n / e;
    assert n == e * q;
    hide Divides;
    if e % 2 == 0 { EvenTimes(e / 2, q); }
  }

  lemma EvenTimes(h: nat, q: nat)
    ensures (2 * h) * q % 2 == 0
  {
    assert (2 * h) * q == 2 * (h * q);
  }

  lemma NextBlock(n: nat, blocks: nat, low: nat, high: nat)
    requires blocks > 0 && Undivided(n, blocks - 1) && low == 32 * blocks - 29 && high == low + 16
    requires NoneOfEight(n, low) && NoneOfEight(n, high)
    ensures Undivided(n, blocks)
  {
  }

  lemma FirstTried()
    ensures Undivided(65537, 4)
  {
    assert Undivided(65537, 0);
    hide Undivided;
    assert Undivided(65537, 1) by { NextBlock(65537, 1, 3, 19); }
    assert Undivided(65537, 2) by { NextBlock(65537, 2, 35, 51); }
    assert Undivided(65537, 3) by { NextBlock(65537, 3, 67, 83); }
    assert Undivided(65537, 4) by { NextBlock(65537, 4, 99, 115); }
  }

  lemma FirstAbove()
    ensures IsPrime(65537)
  {
    hide IsPrime, Undivided;
    FirstTried();
    assert Undivided(65537, 5) by { NextBlock(65537, 5, 131, 147); }
    assert Undivided(65537, 6) by { NextBlock(65537, 6, 163, 179); }
    assert Undivided(65537, 7) by { NextBlock(65537, 7, 195, 211); }
    assert Undivided(65537, 8) by { NextBlock(65537, 8, 227, 243); }
    TrialDivision(65537, 8, 259);
  }

  lemma SecondTried()
    ensures Undivided(65539, 4)
  {
    assert Undivided(65539, 0);
    hide Undivided;
    assert Undivided(65539, 1) by { NextBlock(65539, 1, 3, 19); }
    assert Undivided(65539, 2) by { NextBlock(65539, 2, 35, 51); }
    assert Undivided(65539, 3) by { NextBlock(65539, 3, 67, 83); }
    assert Undivided(65539, 4) by { NextBlock(65539, 4, 99, 115); }
  }

  lemma SecondAbove()
    ensures IsPrime(65539)
  {
    hide IsPrime, Undivided;
    SecondTried();
    assert Undivided(65539, 5) by { NextBlock(65539, 5, 131, 147); }
    assert Undivided(65539, 6) by { NextBlock(65539, 6, 163, 179); }
    assert Undivided(65539, 7) by { NextBlock(65539, 7, 195, 211); }
    assert Undivided(65539, 8) by { NextBlock(65539, 8, 227, 243); }
    TrialDivision(65539, 8, 259);
  }

  /** The table for the node's limit ends beyond two primes above 2^16. */
  lemma TableEnds(vPrimes: seq<nat>)
    requires IsPrimeTable(vPrimes, 1_000_000)
    ensures |vPrimes| >= 2 && vPrimes[|vPrimes| - 2] > 65536 && vPrimes[|vPrimes| - 1] > 65536
  {
    hide IsPrime;
    FirstAbove();
    SecondAbove();
    assert 65537 in vPrimes && 65539 in vPrimes;
    var i :| 0 <= i < |vPrimes| && vPrimes[i] == 65537;
    var j :| 0 <= j < |vPrimes| && vPrimes[j] == 65539;
  }
}
