/** How many flag bits a partial Merkle tree takes (main.h, the size comment of
    CPartialMerkleTree): twice the hashes less one, and one more for each node that it visits
    above a single child. */
module PartialTreeBits {
  import opened Arithmetic
  import opened MerkleTree
  import opened PartialMerkleTree

  /** The visited inner nodes with one child. */
  ghost function Singles(n: nat, vMatch: seq<bool>, height: nat, pos: nat): nat
    decreases height
  {
    if pos >= TreeWidth(n, height) || height == 0 || !ParentOfMatch(vMatch, height, pos) then 0
    else (if pos * 2 + 1 >= TreeWidth(n, height - 1) then 1 else 0)
         + Singles(n, vMatch, height - 1, pos * 2) + Singles(n, vMatch, height - 1, pos * 2 + 1)
  }

  lemma SinglesUnfold(n: nat, vMatch: seq<bool>, height: nat, pos: nat)
    requires pos < TreeWidth(n, height + 1) && ParentOfMatch(vMatch, height + 1, pos)
    ensures Singles(n, vMatch, height + 1, pos)
            == (if pos * 2 + 1 >= TreeWidth(n, height) then 1 else 0) + Singles(n, vMatch, height, pos * 2) + Singles(n, vMatch, height, pos * 2 + 1)
  {
    hide TreeWidth, ParentOfMatch;
  }

  lemma NoSingles(n: nat, vMatch: seq<bool>, height: nat, pos: nat)
    requires pos >= TreeWidth(n, height) || height == 0 || !ParentOfMatch(vMatch, height, pos)
    ensures Singles(n, vMatch, height, pos) == 0
  {
  }

  lemma StoredBits(H: PairHash, vTxid: seq<uint256>, vMatch: seq<bool>, height: nat, pos: nat)
    requires pos < TreeWidth(|vTxid|, height) && (height == 0 || !ParentOfMatch(vMatch, height, pos))
    ensures |Encode(H, vTxid, vMatch, height, pos).bits| == 1 == |Encode(H, vTxid, vMatch, height, pos).hashes|
  {
    hide TreeWidth, ParentOfMatch, CalcHash;
  }

  /** The exact number of bits, for every node of every tree under every mask. */
  lemma {:induction false} BitCount(H: PairHash, vTxid: seq<uint256>, vMatch: seq<bool>, height: nat, pos: nat)
    requires pos < TreeWidth(|vTxid|, height)
    ensures
      var e := Encode(H, vTxid, vMatch, height, pos);
      |e.bits| == 2 * |e.hashes| - 1 + Singles(|vTxid|, vMatch, height, pos)
    decreases height
  {
    hide *;
    if height > 0 && ParentOfMatch(vMatch, height, pos) {
      var h := height - 1;
      ChildExists(|vTxid|, h, pos);
      BitCount(H, vTxid, vMatch, h, pos * 2);
      EncodeLengths(H, vTxid, vMatch, h, pos);
      SinglesUnfold(|vTxid|, vMatch, h, pos);
      if pos * 2 + 1 < TreeWidth(|vTxid|, h) {
        BitCount(H, vTxid, vMatch, h, pos * 2 + 1);
      } else {
        NoPart(H, vTxid, vMatch, h, pos * 2 + 1);
        NoSingles(|vTxid|, vMatch, h, pos * 2 + 1);
      }
    } else {
      StoredBits(H, vTxid, vMatch, height, pos);
      NoSingles(|vTxid|, vMatch, height, pos);
    }
  }

  // ---------- where single children are ----------

  /** Only the last node of a level has a last descendant. */
  lemma {:induction false} InnerHasNoSingles(n: nat, vMatch: seq<bool>, height: nat, pos: nat)
    requires pos + 1 < TreeWidth(n, height)
    ensures Singles(n, vMatch, height, pos) == 0
    decreases height
  {
    if height > 0 && ParentOfMatch(vMatch, height, pos) {
      WidthStep(n, height - 1);
      hide TreeWidth, ParentOfMatch;
      InnerHasNoSingles(n, vMatch, height - 1, pos * 2);
      InnerHasNoSingles(n, vMatch, height - 1, pos * 2 + 1);
    }
  }

  /** A match at or after the first leaf below the last node of a level. */
  ghost predicate MatchBelowLast(n: nat, vMatch: seq<bool>, height: nat)
    requires n >= 1
  {
    WidthPositive(n, height);
    MatchIn(vMatch, FirstLeaf(height, TreeWidth(n, height) - 1), |vMatch|)
  }

  /** Below the levels up to a height, no last node of an odd level has a match. */
  ghost predicate OddLevelsUnmatched(n: nat, vMatch: seq<bool>, height: nat)
    requires n >= 1
  {
    forall h: nat | h < height && TreeWidth(n, h) % 2 == 1 :: !MatchBelowLast(n, vMatch, h)
  }

  lemma LastIsParent(n: nat, vMatch: seq<bool>, height: nat)
    requires n >= 1 && |vMatch| == n
    ensures TreeWidth(n, height) >= 1
    ensures ParentOfMatch(vMatch, height, TreeWidth(n, height) - 1) <==> MatchBelowLast(n, vMatch, height)
  {
    WidthPositive(n, height);
    WidthFormula(n, height);
    var w, p := TreeWidth(n, height), Pow2(height);
    assert FirstLeaf(height, w) == p * w;
    hide TreeWidth, FirstLeaf, Pow2;
    var lo := FirstLeaf(height, w - 1);
    if i :| lo <= i < |vMatch| && vMatch[i] { assert lo <= i < FirstLeaf(height, w) && vMatch[i]; }
    if i :| lo <= i < FirstLeaf(height, w) && i < |vMatch| && vMatch[i] { assert lo <= i < |vMatch| && vMatch[i]; }
  }

  /** The last node's children: its own, or the last node of the level below and one that is not. */
  lemma LastBelow(n: nat, vMatch: seq<bool>, height: nat)
    requires n >= 1
    ensures TreeWidth(n, height) >= 1 && TreeWidth(n, height + 1) >= 1
    ensures
      var w, q := TreeWidth(n, height), TreeWidth(n, height + 1) - 1;
      if w % 2 == 1 then w == 2 * q + 1 else w == 2 * q + 2
    ensures TreeWidth(n, height) % 2 == 1 ==> MatchBelowLast(n, vMatch, height) == MatchBelowLast(n, vMatch, height + 1)
    ensures MatchBelowLast(n, vMatch, height) ==> MatchBelowLast(n, vMatch, height + 1)
  {
    WidthPositive(n, height);
    WidthPositive(n, height + 1);
    WidthStep(n, height);
    var w, q := TreeWidth(n, height), TreeWidth(n, height + 1) - 1;
    ChildLeaves(n, height, q);
    hide TreeWidth, FirstLeaf;
    assert w - 1 == 2 * q || w - 1 == 2 * q + 1;
    if i :| FirstLeaf(height, w - 1) <= i < |vMatch| && vMatch[i] {
      assert FirstLeaf(height + 1, q) <= i < |vMatch| && vMatch[i];
    }
  }

  lemma LastSingles(n: nat, vMatch: seq<bool>, height: nat)
    requires n >= 1 && |vMatch| == n
    ensures TreeWidth(n, height) >= 1 && TreeWidth(n, height + 1) >= 1
    ensures Singles(n, vMatch, height + 1, TreeWidth(n, height + 1) - 1)
            == if MatchBelowLast(n, vMatch, height + 1)
               then (if TreeWidth(n, height) % 2 == 1 then 1 else 0) + Singles(n, vMatch, height, TreeWidth(n, height) - 1) else 0
  {
    LastBelow(n, vMatch, height);
    LastIsParent(n, vMatch, height + 1);
    hide TreeWidth, ParentOfMatch, MatchBelowLast, Singles;
    var w, q := TreeWidth(n, height), TreeWidth(n, height + 1) - 1;
    if ParentOfMatch(vMatch, height + 1, q) {
      SinglesUnfold(n, vMatch, height, q);
      if w % 2 == 1 { NoSingles(n, vMatch, height, q * 2 + 1); } else { InnerHasNoSingles(n, vMatch, height, q * 2); }
    } else {
      NoSingles(n, vMatch, height + 1, q);
    }
  }

  lemma {:induction false} SinglesOfLast(n: nat, vMatch: seq<bool>, height: nat)
    requires n >= 1 && |vMatch| == n
    ensures TreeWidth(n, height) >= 1
    ensures Singles(n, vMatch, height, TreeWidth(n, height) - 1) == 0 <==> OddLevelsUnmatched(n, vMatch, height)
  {
    hide TreeWidth, MatchBelowLast, Singles;
    if height == 0 {
      WidthPositive(n, 0);
      NoSingles(n, vMatch, 0, TreeWidth(n, 0) - 1);
    } else {
      var h := height - 1;
      SinglesOfLast(n, vMatch, h);
      LastSingles(n, vMatch, h);
      LastBelow(n, vMatch, h);
      if !MatchBelowLast(n, vMatch, height) { NoneFurtherDown(n, vMatch, height); }
      assert OddLevelsUnmatched(n, vMatch, height) <==> OddLevelsUnmatched(n, vMatch, h) && (TreeWidth(n, h) % 2 == 1 ==> !MatchBelowLast(n, vMatch, h));
    }
  }

  lemma {:induction false} NoneFurtherDown(n: nat, vMatch: seq<bool>, height: nat)
    requires n >= 1 && !MatchBelowLast(n, vMatch, height)
    ensures forall h: nat | h < height :: !MatchBelowLast(n, vMatch, h)
  {
    hide MatchBelowLast;
    if height > 0 {
      LastBelow(n, vMatch, height - 1);
      NoneFurtherDown(n, vMatch, height - 1);
    }
  }

  // ---------- the bound ----------

  /** The bound that the comment states: 2N - 1 bits for N hashes. */
  ghost predicate CommentedBound(H: PairHash, vTxid: seq<uint256>, vMatch: seq<bool>, height: nat) {
    |Encode(H, vTxid, vMatch, height, 0).bits| <= 2 * |Encode(H, vTxid, vMatch, height, 0).hashes| - 1
  }

  /** It holds exactly when no match lies below the last node of a level of odd width: that
      node is its parent's only child. */
  lemma CommentedBoundIff(H: PairHash, vTxid: seq<uint256>, vMatch: seq<bool>, height: nat)
    requires 1 <= |vTxid| == |vMatch| && IsHeight(|vTxid|, height)
    ensures CommentedBound(H, vTxid, vMatch, height) <==> OddLevelsUnmatched(|vTxid|, vMatch, height)
  {
    hide TreeWidth, Encode, OddLevelsUnmatched, Singles, IsHeight;
    RootLeaves(|vTxid|, height);
    BitCount(H, vTxid, vMatch, height, 0);
    SinglesOfLast(|vTxid|, vMatch, height);
  }

  lemma {:induction false} EvenDownTo(n: nat, height: nat)
    requires forall h: nat | h < height :: TreeWidth(n, h) % 2 == 0
    ensures n == Pow2(height) * TreeWidth(n, height)
  {
    if height == 0 {
      WidthZero(n);
    } else {
      EvenDownTo(n, height - 1);
      WidthStep(n, height - 1);
      hide TreeWidth;
      DoubleProduct(Pow2(height - 1), TreeWidth(n, height));
      assert Pow2(height - 1) * (2 * TreeWidth(n, height)) == 2 * (Pow2(height - 1) * TreeWidth(n, height));
    }
  }

  lemma {:induction false} PowerWidths(k: nat, h: nat)
    requires h <= k
    ensures TreeWidth(Pow2(k), h) == Pow2(k - h)
  {
    if h > 0 {
      PowerWidths(k, h - 1);
      WidthStep(Pow2(k), h - 1);
      hide TreeWidth;
    }
  }

  lemma LastMatched(n: nat, vMatch: seq<bool>, height: nat)
    requires n >= 1 && |vMatch| == n && vMatch[n - 1]
    ensures MatchBelowLast(n, vMatch, height)
  {
    WidthPositive(n, height);
    LeafBounds(n, height, TreeWidth(n, height) - 1);
    hide TreeWidth, FirstLeaf;
    assert FirstLeaf(height, TreeWidth(n, height) - 1) <= n - 1;
  }

  /** Only for a power of two does the bound hold whatever is matched. */
  lemma CommentedBoundForAll(H: PairHash, vTxid: seq<uint256>, height: nat)
    requires vTxid != [] && IsHeight(|vTxid|, height)
    ensures (forall vMatch: seq<bool> | |vMatch| == |vTxid| :: CommentedBound(H, vTxid, vMatch, height)) <==> exists k: nat :: |vTxid| == Pow2(k)
  {
    hide CommentedBound, TreeWidth, MatchBelowLast;
    var n := |vTxid|;
    if k: nat :| n == Pow2(k) {
      HeightOfPower(k, height);
      forall vMatch: seq<bool> | |vMatch| == n ensures CommentedBound(H, vTxid, vMatch, height) {
        CommentedBoundIff(H, vTxid, vMatch, height);
      }
    }
    if forall vMatch: seq<bool> | |vMatch| == n :: CommentedBound(H, vTxid, vMatch, height) {
      var vMatch := seq(n, _ => true);
      CommentedBoundIff(H, vTxid, vMatch, height);
      forall h: nat | h < height ensures TreeWidth(n, h) % 2 == 0 { LastMatched(n, vMatch, h); }
      EvenDownTo(n, height);
      RootLeaves(n, height);
      assert n == Pow2(height);
    }
  }

  lemma HeightOfPower(k: nat, height: nat)
    requires IsHeight(Pow2(k), height)
    ensures height == k && forall h: nat | h < height :: TreeWidth(Pow2(k), h) % 2 == 0
  {
    hide TreeWidth;
    PowerWidths(k, k);
    forall h: nat | h < k ensures TreeWidth(Pow2(k), h) % 2 == 0 && TreeWidth(Pow2(k), h) > 1 {
      PowerWidths(k, h);
      assert Pow2(k - h) == 2 * Pow2(k - h - 1);
    }
    assert IsHeight(Pow2(k), k);
    HeightIsUnique(Pow2(k), k, height);
  }

  /** A tree of three leaves where it fails: the last leaf is matched, and is an only child. */
  lemma CommentedBitBoundFails(H: PairHash, a: uint256, b: uint256, c: uint256)
    ensures IsHeight(3, 2) && !CommentedBound(H, [a, b, c], [false, false, true], 2)
    ensures |Encode(H, [a, b, c], [false, false, true], 2, 0).hashes| == 2
    ensures |Encode(H, [a, b, c], [false, false, true], 2, 0).bits| == 4
  {
    var vTxid, vMatch := [a, b, c], [false, false, true];
    assert TreeWidth(3, 0) == 3 && TreeWidth(3, 1) == 2 && TreeWidth(3, 2) == 1;
    assert Pow2(1) == 2 && Pow2(2) == 4;
    assert MatchIn(vMatch, 0, 4) && MatchIn(vMatch, 2, 4) && !MatchIn(vMatch, 0, 2) by { assert vMatch[2]; }
    EncodeLengths(H, vTxid, vMatch, 1, 0);
    EncodeLengths(H, vTxid, vMatch, 0, 1);
  }
}
