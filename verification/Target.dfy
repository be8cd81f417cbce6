/** Difficulty targets and retargeting (prime.cpp, TargetGetNext and what it uses; main.cpp,
    GetBlockWork). A target is a chain length and a 24-bit fraction; the mask and shift
    operations on it are written with / and %. */
module Target {
  import opened Arithmetic

  const FRACTIONAL_ONE := 0x100_0000 // 1 << nFractionalBits
  const DIFFICULTY_MIN := 0x1_0000_0000
  const DIFFICULTY_THRESHOLD := 0x100_0000_0000
  const DIFFICULTY_MAX := 0x100_0000_0000_0000

  function TargetGetLength(nBits: nat): nat {
    nBits / FRACTIONAL_ONE
  }

  function TargetGetFractional(nBits: nat): (f: nat)
    ensures f < FRACTIONAL_ONE
  {
    nBits % FRACTIONAL_ONE
  }

  function TargetGetFractionalDifficulty(nBits: nat): nat {
    DIFFICULTY_MAX / (FRACTIONAL_ONE - TargetGetFractional(nBits))
  }

  /** The bitwise or of a length and a fraction of at most one: adding, except that a whole
      one meets the lowest bit of the length. */
  function OrFraction(nLength: nat, nFractional: nat): nat
    requires nFractional <= FRACTIONAL_ONE
  {
    if nFractional == FRACTIONAL_ONE && nLength % 2 == 1 then nLength * FRACTIONAL_ONE
    else nLength * FRACTIONAL_ONE + nFractional
  }

  function SetFractionalDifficulty(nFractionalDifficulty: nat, nBits: nat): nat
    requires DIFFICULTY_MIN <= nFractionalDifficulty
  {
    DivideBounds(nFractionalDifficulty);
    OrFraction(TargetGetLength(nBits), FRACTIONAL_ONE - DIFFICULTY_MAX / nFractionalDifficulty)
  }

  lemma DivideBounds(d: nat)
    requires DIFFICULTY_MIN <= d
    ensures DIFFICULTY_MAX / d <= FRACTIONAL_ONE
    ensures d <= DIFFICULTY_MAX ==> 1 <= DIFFICULTY_MAX / d
    ensures d <= DIFFICULTY_THRESHOLD ==> 0x1_0000 <= DIFFICULTY_MAX / d
  {
    DivideAnti(DIFFICULTY_MAX, DIFFICULTY_MIN, d);
    if d <= DIFFICULTY_MAX { DivideAnti(DIFFICULTY_MAX, d, DIFFICULTY_MAX); }
    if d <= DIFFICULTY_THRESHOLD { DivideAnti(DIFFICULTY_MAX, d, DIFFICULTY_THRESHOLD); }
  }

  /** A quotient falls as the divisor grows. */
  lemma DivideAnti(n: nat, a: nat, b: nat)
    requires 0 < a <= b
    ensures n / b <= n / a
  {
    var x, y := n / a, n / b;
    assert n == a * x + n % a && n == b * y + n % b;
    if y >= x + 1 {
      MulMono(b, x + 1, y);
      assert a * (x + 1) <= b * (x + 1) by { MulMono(x + 1, a, b); }
    }
  }

  lemma DivideMono(a: nat, n: nat, m: nat)
    requires 0 < a && n <= m
    ensures n / a <= m / a
  {
    var x, y := n / a, m / a;
    assert n == a * x + n % a && m == a * y + m % a;
    if x >= y + 1 { MulMono(a, y + 1, x); }
  }

  lemma FractionalDifficultyBounds(nBits: nat)
    ensures DIFFICULTY_MIN <= TargetGetFractionalDifficulty(nBits) <= DIFFICULTY_MAX
  {
    var m := FRACTIONAL_ONE - TargetGetFractional(nBits);
    DivideAnti(DIFFICULTY_MAX, 1, m);
    DivideAnti(DIFFICULTY_MAX, m, FRACTIONAL_ONE);
  }

  method TargetSetFractionalDifficulty(nFractionalDifficulty: nat, nBits: nat) returns (ok: bool, nBitsNext: nat)
    ensures ok <==> nFractionalDifficulty >= DIFFICULTY_MIN
    ensures nBitsNext == if ok then SetFractionalDifficulty(nFractionalDifficulty, nBits) else nBits
  {
    nBitsNext := nBits;
    if nFractionalDifficulty < DIFFICULTY_MIN {
      return false, nBitsNext;
    }
    var nFractional := DIFFICULTY_MAX / nFractionalDifficulty;
    DivideBounds(nFractionalDifficulty);
    if nFractional > FRACTIONAL_ONE {
      return false, nBitsNext;
    }
    nFractional := FRACTIONAL_ONE - nFractional;
    nBitsNext := nBitsNext - nBitsNext % FRACTIONAL_ONE;
    nBitsNext := OrFraction(nBitsNext / FRACTIONAL_ONE, nFractional);
    ok := true;
  }

  /** Setting the difficulty just read gives the target back. */
  lemma SetAfterGet(nBits: nat)
    ensures TargetGetFractionalDifficulty(nBits) >= DIFFICULTY_MIN
    ensures SetFractionalDifficulty(TargetGetFractionalDifficulty(nBits), nBits) == nBits
  {
    var m := FRACTIONAL_ONE - TargetGetFractional(nBits);
    var q := TargetGetFractionalDifficulty(nBits);
    FractionalDifficultyBounds(nBits);
    assert DIFFICULTY_MAX == m * q + DIFFICULTY_MAX % m;
    assert m * q == q * m;
    ResidueIsUnique(q, DIFFICULTY_MAX, m, DIFFICULTY_MAX % m);
  }

  // ---------- retargeting ----------

  function Clamp(d: int): (c: nat)
    ensures DIFFICULTY_MIN <= c <= DIFFICULTY_MAX
  {
    if d > DIFFICULTY_MAX then DIFFICULTY_MAX else if d < DIFFICULTY_MIN then DIFFICULTY_MIN else d
  }

  function Weighted(d: nat, nInterval: nat, nTargetSpacing: nat): nat {
    d * ((nInterval + 1) * nTargetSpacing)
  }

  /** The divisor of the moving average: positive unless the block is dated too far before
      its parent. */
  function Divisor(nInterval: nat, nTargetSpacing: nat, nActualSpacing: int): int {
    (nInterval - 1) * nTargetSpacing + 2 * nActualSpacing
  }

  /** Division of big numbers drops the fraction, whatever the sign. */
  function Truncated(n: nat, d: int): int
    requires d != 0
  {
    if d > 0 then n / d else -(n / -d)
  }

  /** The moving average over nInterval blocks. */
  function NewDifficulty(d: nat, nInterval: nat, nTargetSpacing: nat, nActualSpacing: int): (r: nat)
    requires Divisor(nInterval, nTargetSpacing, nActualSpacing) != 0
  {
    Clamp(Truncated(Weighted(d, nInterval, nTargetSpacing), Divisor(nInterval, nTargetSpacing, nActualSpacing)))
  }

  /** The target for a length and a new difficulty, crossing to the next length above the
      threshold and to the previous one at the minimum. */
  function StepTarget(nBits: nat, d: nat, nTargetMinLength: nat): nat
    requires DIFFICULTY_MIN <= d
  {
    var n := TargetGetLength(nBits);
    if d > DIFFICULTY_THRESHOLD then SetFractionalDifficulty(DIFFICULTY_MIN, nBits + FRACTIONAL_ONE)
    else if d == DIFFICULTY_MIN && n > nTargetMinLength then SetFractionalDifficulty(DIFFICULTY_THRESHOLD, nBits - FRACTIONAL_ONE)
    else SetFractionalDifficulty(d, nBits)
  }

  function NextTarget(nBits: nat, nInterval: nat, nTargetSpacing: nat, nActualSpacing: int, nTargetMinLength: nat): nat
    requires Divisor(nInterval, nTargetSpacing, nActualSpacing) != 0
  {
    StepTarget(nBits, NewDifficulty(TargetGetFractionalDifficulty(nBits), nInterval, nTargetSpacing, nActualSpacing), nTargetMinLength)
  }

  /** TargetGetNext returns no failure; a zero divisor throws. */
  method TargetGetNext(nBits: nat, nInterval: nat, nTargetSpacing: nat, nActualSpacing: int, nTargetMinLength: nat)
    returns (thrown: bool, ok: bool, nBitsNext: nat)
    ensures thrown <==> Divisor(nInterval, nTargetSpacing, nActualSpacing) == 0
    ensures !thrown ==> ok && nBitsNext == NextTarget(nBits, nInterval, nTargetSpacing, nActualSpacing, nTargetMinLength)
  {
    thrown, ok := false, false;
    nBitsNext := nBits;
    var nFractionalDifficulty := TargetGetFractionalDifficulty(nBits);
    var bnFractionalDifficulty: int := nFractionalDifficulty;
    bnFractionalDifficulty := bnFractionalDifficulty * ((nInterval + 1) * nTargetSpacing);
    var bnDivisor := (nInterval - 1) * nTargetSpacing + nActualSpacing + nActualSpacing;
    if bnDivisor == 0 {
      return true, false, nBitsNext;
    }
    bnFractionalDifficulty := Truncated(bnFractionalDifficulty, bnDivisor);
    if bnFractionalDifficulty > DIFFICULTY_MAX {
      bnFractionalDifficulty := DIFFICULTY_MAX;
    }
    if bnFractionalDifficulty < DIFFICULTY_MIN {
      bnFractionalDifficulty := DIFFICULTY_MIN;
    }
    var nFractionalDifficultyNew: nat := bnFractionalDifficulty;
    assert nFractionalDifficultyNew == NewDifficulty(nFractionalDifficulty, nInterval, nTargetSpacing, nActualSpacing);
    hide NewDifficulty, SetFractionalDifficulty, TargetGetFractionalDifficulty;
    if nFractionalDifficultyNew > DIFFICULTY_THRESHOLD {
      nFractionalDifficultyNew := DIFFICULTY_MIN;
      nBitsNext := nBitsNext + FRACTIONAL_ONE;
    } else if nFractionalDifficultyNew == DIFFICULTY_MIN && TargetGetLength(nBitsNext) > nTargetMinLength {
      nFractionalDifficultyNew := DIFFICULTY_THRESHOLD;
      nBitsNext := nBitsNext - FRACTIONAL_ONE;
    }
    ok, nBitsNext := TargetSetFractionalDifficulty(nFractionalDifficultyNew, nBitsNext);
  }

  /** A set target keeps the length, and its fraction stays below one. */
  lemma SetKeepsLength(d: nat, nBits: nat)
    requires DIFFICULTY_MIN <= d <= DIFFICULTY_MAX
    ensures TargetGetLength(SetFractionalDifficulty(d, nBits)) == TargetGetLength(nBits)
  {
    DivideBounds(d);
  }

  /** The length moves by at most one, never below the minimum, and fits its 8 bits. */
  lemma LengthMovesByOne(nBits: nat, d: nat, nTargetMinLength: nat)
    requires DIFFICULTY_MIN <= d <= DIFFICULTY_MAX && nTargetMinLength <= TargetGetLength(nBits) <= 254
    ensures
      var n, m := TargetGetLength(nBits), TargetGetLength(StepTarget(nBits, d, nTargetMinLength));
      && n - 1 <= m <= n + 1 && nTargetMinLength <= m
      && StepTarget(nBits, d, nTargetMinLength) < 0x1_0000_0000
      && (m == n + 1 <==> d > DIFFICULTY_THRESHOLD)
      && (m == n - 1 <==> d == DIFFICULTY_MIN && n > nTargetMinLength)
  {
    assert TargetGetLength(nBits + FRACTIONAL_ONE) == TargetGetLength(nBits) + 1;
    SetKeepsLength(DIFFICULTY_MIN, nBits + FRACTIONAL_ONE);
    SetKeepsLength(d, nBits);
    if TargetGetLength(nBits) > nTargetMinLength {
      assert TargetGetLength(nBits - FRACTIONAL_ONE) == TargetGetLength(nBits) - 1;
      SetKeepsLength(DIFFICULTY_THRESHOLD, nBits - FRACTIONAL_ONE);
    }
    hide SetFractionalDifficulty;
  }

  lemma NextTargetIsValid(nBits: nat, nInterval: nat, nTargetSpacing: nat, nActualSpacing: int, nTargetMinLength: nat)
    requires Divisor(nInterval, nTargetSpacing, nActualSpacing) != 0 && nTargetMinLength <= TargetGetLength(nBits) <= 254
    ensures
      var next := NextTarget(nBits, nInterval, nTargetSpacing, nActualSpacing, nTargetMinLength);
      && next < 0x1_0000_0000 && nTargetMinLength <= TargetGetLength(next)
      && TargetGetLength(nBits) - 1 <= TargetGetLength(next) <= TargetGetLength(nBits) + 1
  {
    hide NewDifficulty, StepTarget, TargetGetFractionalDifficulty;
    var d := NewDifficulty(TargetGetFractionalDifficulty(nBits), nInterval, nTargetSpacing, nActualSpacing);
    NewDifficultyBounds(TargetGetFractionalDifficulty(nBits), nInterval, nTargetSpacing, nActualSpacing);
    LengthMovesByOne(nBits, d, nTargetMinLength);
  }

  lemma NewDifficultyBounds(d: nat, nInterval: nat, nTargetSpacing: nat, nActualSpacing: int)
    requires Divisor(nInterval, nTargetSpacing, nActualSpacing) != 0
    ensures DIFFICULTY_MIN <= NewDifficulty(d, nInterval, nTargetSpacing, nActualSpacing) <= DIFFICULTY_MAX
  {
  }

  lemma SlowerBlocksLowerDifficulty(d: nat, nInterval: nat, nTargetSpacing: nat, a: int, b: int)
    requires Divisor(nInterval, nTargetSpacing, a) > 0 && a <= b
    ensures Divisor(nInterval, nTargetSpacing, b) > 0
    ensures NewDifficulty(d, nInterval, nTargetSpacing, b) <= NewDifficulty(d, nInterval, nTargetSpacing, a)
  {
    DivideAnti(Weighted(d, nInterval, nTargetSpacing), Divisor(nInterval, nTargetSpacing, a), Divisor(nInterval, nTargetSpacing, b));
  }

  /** A block dated so far before its parent that the divisor is negative counts as slow. */
  lemma NegativeDivisor(d: nat, nInterval: nat, nTargetSpacing: nat, a: int)
    requires Divisor(nInterval, nTargetSpacing, a) < 0
    ensures NewDifficulty(d, nInterval, nTargetSpacing, a) == DIFFICULTY_MIN
  {
  }

  /** Counted in scheduled spacings the schedule itself drops out: after a block that took k of
      them the difficulty moves by (N + 1) to (N - 1 + 2k). */
  lemma SpacingsCancel(d: nat, nInterval: nat, nTargetSpacing: nat, k: nat)
    requires nTargetSpacing > 0 && nInterval - 1 + 2 * k > 0
    ensures Divisor(nInterval, nTargetSpacing, k * nTargetSpacing) > 0
    ensures NewDifficulty(d, nInterval, nTargetSpacing, k * nTargetSpacing) == Clamp(d * (nInterval + 1) / (nInterval - 1 + 2 * k))
  {
    var m, q, t := d * (nInterval + 1), nInterval - 1 + 2 * k, nTargetSpacing;
    assert Weighted(d, nInterval, t) == m * t;
    DivisorInSpacings(nInterval, t, k);
    CommonFactor(m, q, t);
    hide Weighted, Divisor;
  }

  lemma DivisorInSpacings(nInterval: nat, t: nat, k: nat)
    ensures Divisor(nInterval, t, k * t) == (nInterval - 1 + 2 * k) * t
  {
  }

  lemma CommonFactor(m: nat, q: nat, t: nat)
    requires q > 0 && t > 0
    ensures q * t > 0 && m * t / (q * t) == m / q
  {
    MulMono(t, 1, q);
    assert m * (q * t) == (m * t) * q;
    QuotientMonotone(m, q, m * t, q * t);
    QuotientMonotone(m * t, q * t, m, q);
  }

  lemma SetMonotone(nBits: nat, d: nat, e: nat)
    requires DIFFICULTY_MIN <= d <= e <= DIFFICULTY_MAX
    ensures SetFractionalDifficulty(d, nBits) <= SetFractionalDifficulty(e, nBits)
  {
    DivideAnti(DIFFICULTY_MAX, d, e);
  }

  lemma StepMonotone(nBits: nat, d: nat, e: nat, nTargetMinLength: nat)
    requires DIFFICULTY_MIN <= d <= e <= DIFFICULTY_MAX
    ensures StepTarget(nBits, d, nTargetMinLength) <= StepTarget(nBits, e, nTargetMinLength)
  {
    var n := TargetGetLength(nBits);
    SetMonotone(nBits, d, e);
    SetRange(nBits, d);
    SetRange(nBits, e);
    SetRange(nBits + FRACTIONAL_ONE, DIFFICULTY_MIN);
    assert TargetGetLength(nBits + FRACTIONAL_ONE) == n + 1;
    if n > nTargetMinLength {
      SetRange(nBits - FRACTIONAL_ONE, DIFFICULTY_THRESHOLD);
      assert TargetGetLength(nBits - FRACTIONAL_ONE) == n - 1;
    }
    hide SetFractionalDifficulty;
  }

  lemma SetRange(nBits: nat, d: nat)
    requires DIFFICULTY_MIN <= d <= DIFFICULTY_MAX
    ensures TargetGetLength(nBits) * FRACTIONAL_ONE <= SetFractionalDifficulty(d, nBits) < (TargetGetLength(nBits) + 1) * FRACTIONAL_ONE
  {
    DivideBounds(d);
  }

  /** The slower the last block came, the lower (or equal) the next target, as long as the
      divisor does not change its sign; below zero it gives the lowest target of all. */
  lemma NextTargetAntitone(nBits: nat, nInterval: nat, nTargetSpacing: nat, a: int, b: int, nTargetMinLength: nat)
    requires Divisor(nInterval, nTargetSpacing, a) != 0 && Divisor(nInterval, nTargetSpacing, b) != 0 && a <= b
    ensures Divisor(nInterval, nTargetSpacing, a) > 0 || Divisor(nInterval, nTargetSpacing, b) < 0 ==>
              NextTarget(nBits, nInterval, nTargetSpacing, b, nTargetMinLength) <= NextTarget(nBits, nInterval, nTargetSpacing, a, nTargetMinLength)
    ensures Divisor(nInterval, nTargetSpacing, a) < 0 ==>
              NextTarget(nBits, nInterval, nTargetSpacing, a, nTargetMinLength) <= NextTarget(nBits, nInterval, nTargetSpacing, b, nTargetMinLength)
  {
    var d := TargetGetFractionalDifficulty(nBits);
    var x, y := NewDifficulty(d, nInterval, nTargetSpacing, a), NewDifficulty(d, nInterval, nTargetSpacing, b);
    NewDifficultyBounds(d, nInterval, nTargetSpacing, a);
    NewDifficultyBounds(d, nInterval, nTargetSpacing, b);
    if Divisor(nInterval, nTargetSpacing, a) > 0 {
      SlowerBlocksLowerDifficulty(d, nInterval, nTargetSpacing, a, b);
      StepMonotone(nBits, y, x, nTargetMinLength);
    } else {
      NegativeDivisor(d, nInterval, nTargetSpacing, a);
      StepMonotone(nBits, x, y, nTargetMinLength);
      if Divisor(nInterval, nTargetSpacing, b) < 0 { NegativeDivisor(d, nInterval, nTargetSpacing, b); }
    }
    hide NewDifficulty, StepTarget, TargetGetFractionalDifficulty, Divisor;
  }

  /** With a week of minutes the divisor vanishes for a block dated 302370 seconds before its
      parent, and is negative for an earlier one. */
  lemma DivisorOfAWeek(nActualSpacing: int)
    ensures var nInterval := 7 * 24 * 60 * 60 / 60;
            && (Divisor(nInterval, 60, nActualSpacing) == 0 <==> nActualSpacing == -302370)
            && (Divisor(nInterval, 60, nActualSpacing) < 0 <==> nActualSpacing < -302370)
  {
  }

  lemma OnScheduleDifficulty(d: nat, nInterval: nat, nTargetSpacing: nat)
    requires DIFFICULTY_MIN <= d <= DIFFICULTY_MAX && nTargetSpacing > 0
    ensures Divisor(nInterval, nTargetSpacing, nTargetSpacing) > 0
    ensures NewDifficulty(d, nInterval, nTargetSpacing, nTargetSpacing) == d
  {
    var w := (nInterval + 1) * nTargetSpacing;
    assert (nInterval - 1) * nTargetSpacing + 2 * nTargetSpacing == w;
    assert w > 0 by { MulMono(nTargetSpacing, 1, nInterval + 1); }
    QuotientIsUnique(w, d * w, d);
  }

  lemma DifficultyPositions(nBits: nat)
    ensures TargetGetFractionalDifficulty(nBits) == DIFFICULTY_MIN <==> TargetGetFractional(nBits) == 0
    ensures TargetGetFractionalDifficulty(nBits) > DIFFICULTY_THRESHOLD <==> TargetGetFractional(nBits) > FRACTIONAL_ONE - 0x1_0000
  {
    var m := FRACTIONAL_ONE - TargetGetFractional(nBits);
    if m < FRACTIONAL_ONE { DivideAnti(DIFFICULTY_MAX, m, FRACTIONAL_ONE - 1); }
    if m < 0x1_0000 { DivideAnti(DIFFICULTY_MAX, m, 0xFFFF); } else { DivideAnti(DIFFICULTY_MAX, 0x1_0000, m); }
  }

  /** On schedule a target stays put exactly when its fraction is neither at the bottom of a
      length that can be left nor above the threshold. */
  lemma OnScheduleFixpoint(nBits: nat, nInterval: nat, nTargetSpacing: nat, nTargetMinLength: nat)
    requires nTargetSpacing > 0 && nTargetMinLength <= TargetGetLength(nBits) <= 254
    ensures Divisor(nInterval, nTargetSpacing, nTargetSpacing) > 0
    ensures NextTarget(nBits, nInterval, nTargetSpacing, nTargetSpacing, nTargetMinLength) == nBits <==>
              TargetGetFractional(nBits) <= FRACTIONAL_ONE - 0x1_0000
              && (TargetGetFractional(nBits) > 0 || TargetGetLength(nBits) == nTargetMinLength)
  {
    var d := TargetGetFractionalDifficulty(nBits);
    FractionalDifficultyBounds(nBits);
    hide TargetGetFractionalDifficulty;
    OnScheduleDifficulty(d, nInterval, nTargetSpacing);
    DifficultyPositions(nBits);
    SetAfterGet(nBits);
    LengthMovesByOne(nBits, d, nTargetMinLength);
    hide NewDifficulty, SetFractionalDifficulty;
  }

  // ---------- block work ----------

  /** 32 is nWorkTransitionRatio. */
  function WorkOf(p: nat, d: nat): nat {
    p * (32 * d) / (31 * DIFFICULTY_MIN + d)
  }

  /** 5 is the logarithm of the transition ratio. */
  function GetBlockWork(nBits: nat, nTargetMinLength: nat): nat
    requires nTargetMinLength <= TargetGetLength(nBits)
  {
    WorkOf(Pow2(8 + 5 * (TargetGetLength(nBits) - nTargetMinLength)), TargetGetFractionalDifficulty(nBits))
  }

  lemma QuotientBelow(n: nat, q: nat, k: nat)
    requires q > 0 && n < q * k
    ensures n / q < k
  {
    var x := n / q;
    assert n == q * x + n % q;
    if x >= k { MulMono(q, k, x); }
  }

  lemma MulCancel(a: nat, b: nat, c: nat)
    requires a * c < b * c
    ensures a < b
  {
    if b <= a { MulMono(c, b, a); }
  }

  lemma QuotientMonotone(n: nat, q: nat, m: nat, r: nat)
    requires q > 0 && r > 0 && n * r <= m * q
    ensures n / q <= m / r
  {
    var y := m / r;
    assert m == r * y + m % r;
    assert m + 1 <= r * (y + 1);
    MulMono(q, m + 1, r * (y + 1));
    assert (r * (y + 1)) * q == (q * (y + 1)) * r;
    MulCancel(n, q * (y + 1), r);
    QuotientBelow(n, q, y + 1);
  }

  /** The fraction multiplies the work of a length by a factor from 1 to below 32. */
  lemma WorkRange(p: nat, d: nat)
    requires d >= DIFFICULTY_MIN && p > 0
    ensures p <= WorkOf(p, d) < 32 * p
  {
    var q := 31 * DIFFICULTY_MIN + d;
    assert p * q <= p * (32 * d) by { MulMono(p, q, 32 * d); }
    assert p * (32 * d) < (32 * p) * q by { MulMono(p, 32 * d + 1, 32 * q); }
    var w := p * (32 * d) / q;
    assert p * (32 * d) == q * w + (p * (32 * d)) % q;
    if w < p { MulMono(q, w + 1, p); }
    if w >= 32 * p { MulMono(q, 32 * p, w); }
  }

  lemma WorkMonotone(p: nat, d: nat, e: nat)
    requires d <= e
    ensures WorkOf(p, d) <= WorkOf(p, e)
  {
    var M := 31 * DIFFICULTY_MIN;
    assert (32 * d) * (M + e) <= (32 * e) * (M + d);
    MulMono(p, (32 * d) * (M + e), (32 * e) * (M + d));
    assert (p * (32 * d)) * (M + e) == p * ((32 * d) * (M + e));
    assert (p * (32 * e)) * (M + d) == p * ((32 * e) * (M + d));
    QuotientMonotone(p * (32 * d), M + d, p * (32 * e), M + e);
  }

  lemma HigherTargetHigherDifficulty(a: nat, b: nat)
    requires TargetGetLength(a) == TargetGetLength(b) && a <= b
    ensures TargetGetFractionalDifficulty(a) <= TargetGetFractionalDifficulty(b)
  {
    DivideAnti(DIFFICULTY_MAX, FRACTIONAL_ONE - TargetGetFractional(b), FRACTIONAL_ONE - TargetGetFractional(a));
  }

  lemma BlockWorkAtLeast256(nBits: nat, nTargetMinLength: nat)
    requires nTargetMinLength <= TargetGetLength(nBits)
    ensures GetBlockWork(nBits, nTargetMinLength) >= 256
  {
    FractionalDifficultyBounds(nBits);
    WorkRange(Pow2(8 + 5 * (TargetGetLength(nBits) - nTargetMinLength)), TargetGetFractionalDifficulty(nBits));
    Pow2Mono(8, 8 + 5 * (TargetGetLength(nBits) - nTargetMinLength));
    assert Pow2(8) == 256;
  }

  /** A higher target never counts as less work. */
  lemma BlockWorkMonotone(a: nat, b: nat, nTargetMinLength: nat)
    requires nTargetMinLength <= TargetGetLength(a) && a <= b
    ensures nTargetMinLength <= TargetGetLength(b)
    ensures GetBlockWork(a, nTargetMinLength) <= GetBlockWork(b, nTargetMinLength)
  {
    FractionalDifficultyBounds(a);
    FractionalDifficultyBounds(b);
    var n, m := TargetGetLength(a) - nTargetMinLength, TargetGetLength(b) - nTargetMinLength;
    var d, e := TargetGetFractionalDifficulty(a), TargetGetFractionalDifficulty(b);
    if n == m {
      HigherTargetHigherDifficulty(a, b);
      hide TargetGetFractionalDifficulty;
      WorkMonotone(Pow2(8 + 5 * n), d, e);
    } else {
      hide TargetGetFractionalDifficulty;
      WorkRange(Pow2(8 + 5 * n), d);
      WorkRange(Pow2(8 + 5 * m), e);
      Pow2Sum(8 + 5 * n, 5);
      assert Pow2(5) == 32;
      Pow2Mono(8 + 5 * n + 5, 8 + 5 * m);
    }
  }

  // ---------- what a block's work means ----------

  function Pow32(k: nat): nat {
    if k == 0 then 1 else 32 * Pow32(k - 1)
  }

  lemma {:induction false} Pow2Of5(k: nat)
    ensures Pow2(8 + 5 * k) == 256 * Pow32(k) > 0
  {
    if k == 0 {
      assert Pow2(8) == 256;
    } else {
      Pow2Of5(k - 1);
      Pow2Sum(5, 8 + 5 * (k - 1));
      assert Pow2(5) == 32;
    }
  }

  /** How often a chain that has the length of a target meets it, by the estimate that one in
      32 chains goes on for another prime. */
  function MeetingRate(d: nat): real
    requires d > 0
  {
    var fractionalDiff := d as real / DIFFICULTY_MIN as real;
    1.0 / fractionalDiff * (1.0 - 1.0 / 32.0) + 1.0 / 32.0
  }

  /** Work is the inverse of that rate, times 32 for every prime above the minimum, in units
      of which the minimum has 256. */
  lemma BlockWorkIsRarity(nBits: nat, nTargetMinLength: nat)
    requires nTargetMinLength <= TargetGetLength(nBits)
    ensures TargetGetFractionalDifficulty(nBits) > 0
    ensures
      var w, p := GetBlockWork(nBits, nTargetMinLength), 256 * Pow32(TargetGetLength(nBits) - nTargetMinLength);
      var rate := MeetingRate(TargetGetFractionalDifficulty(nBits));
      w as real * rate <= p as real < (w as real + 1.0) * rate
  {
    FractionalDifficultyBounds(nBits);
    Pow2Of5(TargetGetLength(nBits) - nTargetMinLength);
    WorkIsRarity(256 * Pow32(TargetGetLength(nBits) - nTargetMinLength), TargetGetFractionalDifficulty(nBits));
  }

  lemma WorkIsRarity(p: nat, d: nat)
    requires d > 0
    ensures WorkOf(p, d) as real * MeetingRate(d) <= p as real < (WorkOf(p, d) as real + 1.0) * MeetingRate(d)
  {
    var w, q := WorkOf(p, d), 31 * DIFFICULTY_MIN + d;
    assert p * (32 * d) == q * w + (p * (32 * d)) % q;
    RateIs(d);
    var rate := MeetingRate(d);
    hide MeetingRate, WorkOf;
    ScaleDown(w, q, p, 32 * d, rate);
  }

  lemma RateIs(d: nat)
    requires d > 0
    ensures MeetingRate(d) * (32 * d) as real == (31 * DIFFICULTY_MIN + d) as real
  {
    var x, m := d as real, DIFFICULTY_MIN as real;
    assert 1.0 / (x / m) == m / x;
    assert m / x * x == m;
  }

  lemma ScaleDown(w: nat, q: nat, p: nat, e: nat, rate: real)
    requires e > 0 && rate * e as real == q as real && q * w <= p * e < q * w + q
    ensures w as real * rate <= p as real < (w as real + 1.0) * rate
  {
  }

  /** The minimum target counts 256. */
  lemma MinimumCounts256(nTargetMinLength: nat)
    ensures GetBlockWork(nTargetMinLength * 0x100_0000, nTargetMinLength) == 256
  {
    FullRate(256);
    assert Pow2(8) == 256;
  }

  lemma FullRate(p: nat)
    ensures WorkOf(p, DIFFICULTY_MIN) == p
  {
    QuotientIsUnique(32 * DIFFICULTY_MIN, p * (32 * DIFFICULTY_MIN), p);
  }

  /** One more prime multiplies the work by 32, up to rounding, and exactly at fraction 0. */
  lemma OneMorePrime(nBits: nat, nTargetMinLength: nat)
    requires nTargetMinLength <= TargetGetLength(nBits)
    ensures nTargetMinLength <= TargetGetLength(nBits + 0x100_0000)
    ensures
      var w, longer := GetBlockWork(nBits, nTargetMinLength), GetBlockWork(nBits + 0x100_0000, nTargetMinLength);
      32 * w <= longer < 32 * (w + 1) && (TargetGetFractional(nBits) == 0 ==> longer == 32 * w)
  {
    var k, d := TargetGetLength(nBits) - nTargetMinLength, TargetGetFractionalDifficulty(nBits);
    assert TargetGetLength(nBits + 0x100_0000) == TargetGetLength(nBits) + 1 && TargetGetFractional(nBits + 0x100_0000) == TargetGetFractional(nBits);
    FractionalDifficultyBounds(nBits);
    Pow2Of5(k);
    Pow2Of5(k + 1);
    var p := 256 * Pow32(k);
    TimesInside(p, d);
    if TargetGetFractional(nBits) == 0 {
      FullRate(p);
      FullRate(32 * p);
    }
    hide WorkOf, Pow2;
  }

  lemma TimesInside(p: nat, d: nat)
    ensures 32 * WorkOf(p, d) <= WorkOf(32 * p, d) < 32 * (WorkOf(p, d) + 1)
  {
    var n, q := p * (32 * d), 31 * DIFFICULTY_MIN + d;
    assert (32 * p) * (32 * d) == 32 * n;
    var w, x := n / q, 32 * n / q;
    assert n == q * w + n % q && 32 * n == q * x + 32 * n % q;
    assert q * (32 * w) == 32 * (q * w) && q * (32 * (w + 1)) == 32 * (q * w) + 32 * q;
    if x < 32 * w { MulMono(q, x + 1, 32 * w); }
    if x >= 32 * (w + 1) { MulMono(q, 32 * (w + 1), x); }
  }

  /** However high the fraction, the work stays below that of the next length. */
  lemma BelowNextLength(nBits: nat, nTargetMinLength: nat)
    requires nTargetMinLength <= TargetGetLength(nBits)
    ensures GetBlockWork(nBits, nTargetMinLength) < GetBlockWork((TargetGetLength(nBits) + 1) * 0x100_0000, nTargetMinLength)
  {
    var k, d := TargetGetLength(nBits) - nTargetMinLength, TargetGetFractionalDifficulty(nBits);
    FractionalDifficultyBounds(nBits);
    Pow2Of5(k);
    Pow2Of5(k + 1);
    WorkRange(256 * Pow32(k), d);
    FullRate(32 * (256 * Pow32(k)));
    var next := (TargetGetLength(nBits) + 1) * 0x100_0000;
    assert TargetGetFractionalDifficulty(next) == DIFFICULTY_MIN && TargetGetLength(next) == TargetGetLength(nBits) + 1;
    hide WorkOf, Pow2;
  }
}
