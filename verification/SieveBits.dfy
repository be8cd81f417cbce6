/** The bit arrays of the sieve: 64-bit words, bit i of an array in word i / 64
    (prime.h, GetWordNum and GetBitMask). A word is the sequence of its bits, lowest first. */
module SieveBits {
  const WORD_BITS := 64

  type Word = w: seq<bool> | |w| == 64 witness Zeros(64)

  function Zeros(n: nat): (z: seq<bool>)
    ensures |z| == n && forall k | 0 <= k < n :: !z[k]
  {
    if n == 0 then [] else Zeros(n - 1) + [false]
  }

  const ZERO: Word := Zeros(64)

  function GetWordNum(nBitNum: nat): nat {
    nBitNum / WORD_BITS
  }

  function GetBitMask(nBitNum: nat): Word {
    ZERO[nBitNum % WORD_BITS := true]
  }

  function Or(a: Word, b: Word): Word {
    seq(|a|, i requires 0 <= i < |a| => a[i] || b[i])
  }

  function And(a: Word, b: Word): Word {
    seq(|a|, i requires 0 <= i < |a| => a[i] && b[i])
  }

  function Not(a: Word): Word {
    seq(|a|, i requires 0 <= i < |a| => !a[i])
  }

  /** Bit i of the array that starts at word `base` of a buffer. */
  ghost predicate Bit(a: array<Word>, base: nat, i: nat)
    reads a
  {
    base + i / WORD_BITS < a.Length && a[base + i / WORD_BITS][i % WORD_BITS]
  }

  /** Testing against a mask tests one bit. */
  lemma MaskTest(w: Word, i: nat)
    ensures And(w, GetBitMask(i)) != ZERO <==> w[i % WORD_BITS]
  {
    var k := i % WORD_BITS;
    assert And(w, GetBitMask(i))[k] == w[k];
    if !w[k] {
      assert And(w, GetBitMask(i)) == ZERO;
    }
  }

  lemma ZeroHasNoBit(k: nat)
    requires k < WORD_BITS
    ensures !ZERO[k]
  {
  }

  lemma SetOneBit(w: Word, i: nat, k: nat)
    requires k < WORD_BITS
    ensures Or(w, GetBitMask(i))[k] <==> w[k] || k == i % WORD_BITS
  {
  }

  lemma WordIndex(i: nat, j: nat)
    ensures i / WORD_BITS == j / WORD_BITS && i % WORD_BITS == j % WORD_BITS <==> i == j
  {
  }

  /** Word w of an array holds bits 64w to 64w + 63. */
  lemma WordRange(i: nat, w: nat)
    ensures i / WORD_BITS < w <==> i < w * WORD_BITS
  {
  }
}
