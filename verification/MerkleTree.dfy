/** Merkle trees of transaction ids (main.h, CBlock::BuildMerkleTree, GetMerkleBranch and
    CheckMerkleBranch; main.cpp, CPartialMerkleTree::CalcHash). H hashes a pair. */
module MerkleTree {
  import opened Arithmetic

  type uint256 = int
  type PairHash = (uint256, uint256) -> uint256

  function Pair(H: PairHash, left: uint256, right: uint256): uint256 {
    H(left, right)
  }

  /** The number of nodes at a height of the tree over n leaves: each level halves the one
      below, rounding up. */
  function TreeWidth(n: nat, height: nat): nat {
    if height == 0 then n else (TreeWidth(n, height - 1) + 1) / 2
  }

  lemma WidthZero(n: nat)
    ensures TreeWidth(n, 0) == n
  {
  }

  lemma WidthStep(n: nat, height: nat)
    ensures TreeWidth(n, height + 1) == (TreeWidth(n, height) + 1) / 2
  {
  }

  /** CPartialMerkleTree's closed form. */
  function CalcTreeWidth(n: nat, height: nat): nat {
    (n + Pow2(height) - 1) / Pow2(height)
  }

  lemma {:induction false} WidthFormula(n: nat, height: nat)
    ensures CalcTreeWidth(n, height) == TreeWidth(n, height)
    ensures n <= Pow2(height) * TreeWidth(n, height) < n + Pow2(height)
  {
    var p, w := Pow2(height), CalcTreeWidth(n, height);
    CeilBounds(n, p, w);
    if height > 0 {
      WidthFormula(n, height - 1);
      hide CalcTreeWidth;
      CeilOfHalf(n, Pow2(height - 1), TreeWidth(n, height - 1), w);
    }
  }

  lemma CeilBounds(n: nat, p: nat, w: nat)
    requires p > 0 && w == (n + p - 1) / p
    ensures n <= p * w < n + p
  {
    assert n + p - 1 == p * w + (n + p - 1) % p;
  }

  lemma CeilOfHalf(n: nat, p: nat, w: nat, v: nat)
    requires p > 0 && n <= p * w < n + p && n <= (2 * p) * v < n + 2 * p
    ensures v == (w + 1) / 2
  {
    assert (2 * p) * v == p * (2 * v);
    assert p * (2 * v + 1) == p * (2 * v) + p;
    assert p * (w + 2) == p * w + 2 * p;
    if 2 * v < w {
      MulMono(p, 2 * v + 1, w);
    }
    if 2 * v > w + 1 {
      MulMono(p, w + 2, 2 * v);
    }
  }

  /** The hash of a node; a node without a right child counts its left one twice. */
  function CalcHash(H: PairHash, vTxid: seq<uint256>, height: nat, pos: nat): uint256
    requires pos < TreeWidth(|vTxid|, height)
    decreases height
  {
    WidthZero(|vTxid|);
    if height == 0 then vTxid[pos]
    else
      WidthStep(|vTxid|, height - 1);
      var left := CalcHash(H, vTxid, height - 1, pos * 2);
      var right := if pos * 2 + 1 < TreeWidth(|vTxid|, height - 1) then CalcHash(H, vTxid, height - 1, pos * 2 + 1) else left;
      Pair(H, left, right)
  }

  /** The height at which the tree has narrowed to one node. */
  ghost predicate IsHeight(n: nat, height: nat) {
    TreeWidth(n, height) <= 1 && forall h: nat | h < height :: TreeWidth(n, h) > 1
  }

  lemma HeightIsUnique(n: nat, a: nat, b: nat)
    requires IsHeight(n, a) && IsHeight(n, b)
    ensures a == b
  {
    hide TreeWidth;
    assert a < b ==> TreeWidth(n, a) > 1;
    assert b < a ==> TreeWidth(n, b) > 1;
  }

  lemma {:induction false} WidthPositive(n: nat, height: nat)
    requires n >= 1
    ensures TreeWidth(n, height) >= 1
  {
    if height > 0 { WidthPositive(n, height - 1); }
  }

  /** A level of the tree, left to right. */
  function Level(H: PairHash, vTxid: seq<uint256>, height: nat): (s: seq<uint256>)
    ensures |s| == TreeWidth(|vTxid|, height)
  {
    seq(TreeWidth(|vTxid|, height), i requires 0 <= i < TreeWidth(|vTxid|, height) => CalcHash(H, vTxid, height, i))
  }

  // ---------- the flat tree ----------

  /** All levels from a height down to the leaves, leaves first. */
  function Levels(H: PairHash, vTxid: seq<uint256>, height: nat): seq<uint256> {
    if height == 0 then Level(H, vTxid, 0) else Levels(H, vTxid, height - 1) + Level(H, vTxid, height)
  }

  /** Where a level starts in the flat tree. */
  function LevelStart(n: nat, height: nat): nat {
    if height == 0 then 0 else LevelStart(n, height - 1) + TreeWidth(n, height - 1)
  }

  lemma {:induction false} LevelsEnd(H: PairHash, vTxid: seq<uint256>, height: nat)
    ensures |Levels(H, vTxid, height)| == LevelStart(|vTxid|, height) + TreeWidth(|vTxid|, height)
    ensures Levels(H, vTxid, height)[LevelStart(|vTxid|, height)..] == Level(H, vTxid, height)
  {
    hide TreeWidth, Pair, CalcHash;
    if height > 0 { LevelsEnd(H, vTxid, height - 1); }
  }

  /** Lower levels stay where they are as the tree grows. */
  lemma {:induction false} LevelsPrefix(H: PairHash, vTxid: seq<uint256>, low: nat, height: nat)
    requires low <= height
    ensures Levels(H, vTxid, low) <= Levels(H, vTxid, height)
  {
    hide TreeWidth, Pair, CalcHash;
    if low < height { LevelsPrefix(H, vTxid, low, height - 1); }
  }

  lemma LevelAt(H: PairHash, vTxid: seq<uint256>, height: nat, pos: nat)
    requires pos < TreeWidth(|vTxid|, height)
    ensures Level(H, vTxid, height)[pos] == CalcHash(H, vTxid, height, pos)
  {
    hide TreeWidth, Pair, CalcHash;
  }

  lemma PrefixAt(s: seq<uint256>, t: seq<uint256>, start: nat, level: seq<uint256>, pos: nat)
    requires s <= t && start <= |s| && s[start..] == level && pos < |level|
    ensures start + pos < |t| && t[start + pos] == level[pos]
  {
    assert s[start..][pos] == s[start + pos];
  }

  ghost predicate EntryIs(s: seq<uint256>, start: nat, pos: nat, hash: uint256) {
    start + pos < |s| && s[start + pos] == hash
  }

  lemma NodeInLevels(H: PairHash, vTxid: seq<uint256>, low: nat, height: nat, pos: nat)
    requires low <= height && pos < TreeWidth(|vTxid|, low)
    ensures EntryIs(Levels(H, vTxid, height), LevelStart(|vTxid|, low), pos, CalcHash(H, vTxid, low, pos))
  {
    hide TreeWidth, Pair, CalcHash, Level, Levels, LevelStart;
    LevelsEnd(H, vTxid, low);
    LevelsPrefix(H, vTxid, low, height);
    LevelAt(H, vTxid, low, pos);
    PrefixAt(Levels(H, vTxid, low), Levels(H, vTxid, height), LevelStart(|vTxid|, low), Level(H, vTxid, low), pos);
  }

  lemma NextNode(H: PairHash, vTxid: seq<uint256>, height: nat, pos: nat)
    requires pos < TreeWidth(|vTxid|, height + 1)
    ensures 2 * pos < TreeWidth(|vTxid|, height)
    ensures
      var last := TreeWidth(|vTxid|, height) - 1;
      CalcHash(H, vTxid, height + 1, pos)
        == Pair(H, CalcHash(H, vTxid, height, 2 * pos), CalcHash(H, vTxid, height, if 2 * pos + 1 < last then 2 * pos + 1 else last))
  {
    WidthStep(|vTxid|, height);
    hide TreeWidth, Pair;
  }

  /** The pair that BuildMerkleTree hashes for a parent. */
  lemma ParentOfPair(H: PairHash, vTxid: seq<uint256>, height: nat, nSize: nat, pos: nat, i2: nat) returns (left: uint256, right: uint256)
    requires nSize == TreeWidth(|vTxid|, height) && 2 * pos < nSize && i2 == if 2 * pos + 1 < nSize - 1 then 2 * pos + 1 else nSize - 1
    ensures EntryIs(Levels(H, vTxid, height), LevelStart(|vTxid|, height), 2 * pos, left)
    ensures EntryIs(Levels(H, vTxid, height), LevelStart(|vTxid|, height), i2, right)
    ensures EntryIs(Level(H, vTxid, height + 1), 0, pos, Pair(H, left, right))
  {
    hide TreeWidth, Pair, CalcHash, Levels, LevelStart, Level;
    WidthStep(|vTxid|, height);
    left, right := CalcHash(H, vTxid, height, 2 * pos), CalcHash(H, vTxid, height, i2);
    NextNode(H, vTxid, height, pos);
    LevelAt(H, vTxid, height + 1, pos);
    NodeInLevels(H, vTxid, height, height, 2 * pos);
    NodeInLevels(H, vTxid, height, height, i2);
  }

  /** The level under construction and the tree below it. */
  ghost predicate LevelGrows(tree: seq<uint256>, level: seq<uint256>, pos: nat, current: seq<uint256>) {
    pos <= |level| && current == tree + level[..pos]
  }

  lemma LevelGrowsByOne(H: PairHash, tree: seq<uint256>, level: seq<uint256>, j: nat, pos: nat, i2: nat, current: seq<uint256>, left: uint256, right: uint256)
    requires LevelGrows(tree, level, pos, current) && EntryIs(tree, j, 2 * pos, left) && EntryIs(tree, j, i2, right)
    requires EntryIs(level, 0, pos, Pair(H, left, right))
    ensures EntryIs(current, j, 2 * pos, left) && EntryIs(current, j, i2, right)
    ensures LevelGrows(tree, level, pos + 1, current + [Pair(H, left, right)])
  {
    hide Pair;
    assert level[..pos + 1] == level[..pos] + [level[pos]];
  }

  /** Appends the parents of the level that starts at j. */
  method BuildLevel(H: PairHash, ghost vTxid: seq<uint256>, tree: seq<uint256>, ghost height: nat, j: nat, nSize: nat) returns (vMerkleTree: seq<uint256>)
    requires tree == Levels(H, vTxid, height) && j == LevelStart(|vTxid|, height) && nSize == TreeWidth(|vTxid|, height)
    ensures vMerkleTree == Levels(H, vTxid, height + 1)
  {
    hide TreeWidth, Level, LevelStart;
    vMerkleTree := tree;
    WidthStep(|vTxid|, height);
    LevelsNext(H, vTxid, height);
    ghost var level := Level(H, vTxid, height + 1);
    var i := 0;
    ghost var pos := 0;
    assert LevelGrows(tree, level, pos, vMerkleTree);
    hide Pair, CalcHash, Levels, LevelGrows;
    while i < nSize
      invariant i == 2 * pos && i <= nSize + 1
      invariant LevelGrows(tree, level, pos, vMerkleTree)
      decreases nSize - i
    {
      var i2 := if i + 1 < nSize - 1 then i + 1 else nSize - 1;
      ghost var left, right := ParentOfPair(H, vTxid, height, nSize, pos, i2);
      LevelGrowsByOne(H, tree, level, j, pos, i2, vMerkleTree, left, right);
      vMerkleTree := vMerkleTree + [Pair(H, vMerkleTree[j + i], vMerkleTree[j + i2])];
      i := i + 2;
      pos := pos + 1;
    }
    LevelIsFull(tree, level, pos, vMerkleTree);
  }

  lemma LevelIsFull(tree: seq<uint256>, level: seq<uint256>, pos: nat, current: seq<uint256>)
    requires LevelGrows(tree, level, pos, current) && pos == |level|
    ensures current == tree + level
  {
    assert level[..pos] == level;
  }

  lemma LevelsNext(H: PairHash, vTxid: seq<uint256>, height: nat)
    ensures Levels(H, vTxid, height + 1) == Levels(H, vTxid, height) + Level(H, vTxid, height + 1)
  {
    hide TreeWidth, Pair, CalcHash, Level;
  }

  // ---------- what the root hashes ----------

  /** The root over 2^h leaves at most, from the top down: the left half is full, and an empty
      right half counts the left one twice. */
  function TreeHash(H: PairHash, s: seq<uint256>, h: nat): uint256
    requires 1 <= |s| <= Pow2(h)
    decreases h
  {
    if h == 0 then s[0]
    else
      var half := Pow2(h - 1);
      if |s| <= half then var c := TreeHash(H, s, h - 1); H(c, c)
      else H(TreeHash(H, s[..half], h - 1), TreeHash(H, s[half..], h - 1))
  }

  /** At most len elements from position lo. */
  function Slice(v: seq<uint256>, lo: nat, len: nat): (s: seq<uint256>)
    ensures |s| == if lo >= |v| then 0 else if lo + len <= |v| then len else |v| - lo
  {
    if lo >= |v| then [] else if lo + len <= |v| then v[lo..lo + len] else v[lo..]
  }

  lemma SliceSplit(v: seq<uint256>, lo: nat, half: nat)
    ensures var s := Slice(v, lo, 2 * half);
            if |s| <= half then Slice(v, lo, half) == s
            else Slice(v, lo, half) == s[..half] && Slice(v, lo + half, half) == s[half..]
  {
  }

  /** The leaves below a node. */
  function LeavesBelow(v: seq<uint256>, height: nat, pos: nat): seq<uint256> {
    Slice(v, pos * Pow2(height), Pow2(height))
  }

  /** There is such a node exactly when there are such leaves. */
  lemma NodeHasLeaves(v: seq<uint256>, height: nat, pos: nat)
    ensures pos < TreeWidth(|v|, height) <==> pos * Pow2(height) < |v|
  {
    WidthFormula(|v|, height);
    hide TreeWidth, Pow2, CalcTreeWidth;
    PositionBounds(|v|, Pow2(height), TreeWidth(|v|, height), pos);
  }

  lemma PositionBounds(n: nat, p: nat, w: nat, pos: nat)
    requires n <= p * w < n + p
    ensures pos < w <==> pos * p < n
  {
    assert (pos + 1) * p == pos * p + p;
    if pos < w { MulMono(p, pos + 1, w); } else { MulMono(p, w, pos); }
  }

  /** A node's leaves are those of its children. */
  lemma LeavesSplit(v: seq<uint256>, height: nat, pos: nat)
    ensures
      var s, half := LeavesBelow(v, height + 1, pos), Pow2(height);
      && ((2 * pos + 1) * half < |v| <==> |s| > half)
      && (if |s| <= half then LeavesBelow(v, height, 2 * pos) == s
          else LeavesBelow(v, height, 2 * pos) == s[..half] && LeavesBelow(v, height, 2 * pos + 1) == s[half..])
  {
    hide Slice;
    var half := Pow2(height);
    ChildPositions(pos, half);
    SliceSplit(v, pos * (2 * half), half);
  }

  lemma ChildPositions(pos: nat, half: nat)
    ensures (2 * pos) * half == pos * (2 * half) && (2 * pos + 1) * half == pos * (2 * half) + half
  {
  }

  /** Every node is the root over the leaves below it. */
  lemma {:induction false} NodeIsTreeHash(H: PairHash, v: seq<uint256>, height: nat, pos: nat)
    requires pos < TreeWidth(|v|, height)
    ensures 1 <= |LeavesBelow(v, height, pos)| <= Pow2(height)
    ensures CalcHash(H, v, height, pos) == TreeHash(H, LeavesBelow(v, height, pos), height)
    decreases height
  {
    NodeHasLeaves(v, height, pos);
    assert 1 <= |LeavesBelow(v, height, pos)| <= Pow2(height) by { hide TreeWidth, TreeHash, CalcHash, Pow2; }
    if height == 0 {
      LeafIsTreeHash(H, v, pos);
    } else {
      var h := height - 1;
      WidthStep(|v|, h);
      LeavesSplit(v, h, pos);
      NodeHasLeaves(v, h, 2 * pos + 1);
      hide TreeWidth, LeavesBelow, Pow2, CalcHash, TreeHash;
      NodeIsTreeHash(H, v, h, 2 * pos);
      if 2 * pos + 1 < TreeWidth(|v|, h) { NodeIsTreeHash(H, v, h, 2 * pos + 1); }
      NodeFromChildren(H, v, h, pos, LeavesBelow(v, height, pos));
    }
  }

  lemma LeafIsTreeHash(H: PairHash, v: seq<uint256>, pos: nat)
    requires pos < TreeWidth(|v|, 0)
    ensures |LeavesBelow(v, 0, pos)| == 1 && CalcHash(H, v, 0, pos) == TreeHash(H, LeavesBelow(v, 0, pos), 0)
  {
    assert pos * Pow2(0) == pos;
  }

  lemma NodeFromChildren(H: PairHash, v: seq<uint256>, h: nat, pos: nat, s: seq<uint256>)
    requires pos < TreeWidth(|v|, h + 1) && 1 <= |s| <= Pow2(h + 1)
    requires 2 * pos < TreeWidth(|v|, h) && (2 * pos + 1 < TreeWidth(|v|, h) <==> |s| > Pow2(h))
    requires |s| <= Pow2(h) ==> CalcHash(H, v, h, 2 * pos) == TreeHash(H, s, h)
    requires |s| > Pow2(h) ==>
               && CalcHash(H, v, h, 2 * pos) == TreeHash(H, s[..Pow2(h)], h)
               && CalcHash(H, v, h, 2 * pos + 1) == TreeHash(H, s[Pow2(h)..], h)
    ensures CalcHash(H, v, h + 1, pos) == TreeHash(H, s, h + 1)
  {
    hide TreeWidth;
  }

  /** The height of the tree is the number of doublings that hold its leaves. */
  lemma HeightHolds(n: nat, height: nat)
    requires n >= 1 && IsHeight(n, height)
    ensures n <= Pow2(height) && (height > 0 ==> Pow2(height - 1) < n)
  {
    WidthFormula(n, height);
    WidthPositive(n, height);
    if height > 0 {
      WidthFormula(n, height - 1);
      assert TreeWidth(n, height - 1) > 1;
      hide TreeWidth;
      MulMono(Pow2(height - 1), 2, TreeWidth(n, height - 1));
    }
    hide TreeWidth;
    assert Pow2(height) * 1 == Pow2(height);
  }

  lemma RootIsTreeHash(H: PairHash, v: seq<uint256>, height: nat)
    requires v != [] && IsHeight(|v|, height)
    ensures |v| <= Pow2(height) && Root(H, v, height) == TreeHash(H, v, height)
  {
    HeightHolds(|v|, height);
    WidthPositive(|v|, height);
    NodeIsTreeHash(H, v, height, 0);
    hide TreeWidth, CalcHash, TreeHash;
    assert LeavesBelow(v, height, 0) == v;
  }

  /** Two subtrees, the left one full, hash as the pair of their roots, left one first. */
  lemma RootOfTwo(H: PairHash, l: seq<uint256>, r: seq<uint256>, h: nat)
    requires |l| == Pow2(h) && 1 <= |r| <= Pow2(h)
    ensures TreeHash(H, l + r, h + 1) == H(TreeHash(H, l, h), TreeHash(H, r, h))
  {
    assert (l + r)[..Pow2(h)] == l && (l + r)[Pow2(h)..] == r;
  }

  /** A root with nothing beside it is paired with itself. */
  lemma RootAlone(H: PairHash, s: seq<uint256>, h: nat)
    requires 1 <= |s| <= Pow2(h)
    ensures TreeHash(H, s, h + 1) == H(TreeHash(H, s, h), TreeHash(H, s, h))
  {
  }

  /** BuildMerkleTree: the flat list of levels and the root, which is 0 for no transactions. */
  method BuildMerkleTree(H: PairHash, vTxid: seq<uint256>) returns (vMerkleTree: seq<uint256>, root: uint256, ghost height: nat)
    ensures IsHeight(|vTxid|, height) && vMerkleTree == Levels(H, vTxid, height)
    ensures root == Root(H, vTxid, height) && (vTxid == [] ==> root == 0)
    ensures vTxid != [] ==> |vTxid| <= Pow2(height) && (height > 0 ==> Pow2(height - 1) < |vTxid|) && root == TreeHash(H, vTxid, height)
    ensures |vTxid| == 1 ==> root == vTxid[0]
    ensures |vTxid| == 2 ==> root == H(vTxid[0], vTxid[1])
  {
    vMerkleTree := vTxid;
    WidthZero(|vTxid|);
    assert Level(H, vTxid, 0) == vTxid;
    hide TreeWidth;
    height := 0;
    var j, nSize := 0, |vTxid|;
    while nSize > 1
      invariant vMerkleTree == Levels(H, vTxid, height) && j == LevelStart(|vTxid|, height) && nSize == TreeWidth(|vTxid|, height)
      invariant forall h: nat | h < height :: TreeWidth(|vTxid|, h) > 1
      decreases nSize
    {
      vMerkleTree := BuildLevel(H, vTxid, vMerkleTree, height, j, nSize);
      WidthStep(|vTxid|, height);
      j := j + nSize;
      nSize := (nSize + 1) / 2;
      height := height + 1;
    }
    root := if vMerkleTree == [] then 0 else vMerkleTree[|vMerkleTree| - 1];
    RootIsLast(H, vTxid, height);
    if vTxid != [] {
      HeightHolds(|vTxid|, height);
      RootIsTreeHash(H, vTxid, height);
      SmallTrees(H, vTxid, height);
    }
  }

  lemma SmallTrees(H: PairHash, v: seq<uint256>, height: nat)
    requires 1 <= |v| <= Pow2(height) && (height > 0 ==> Pow2(height - 1) < |v|)
    ensures |v| == 1 ==> TreeHash(H, v, height) == v[0]
    ensures |v| == 2 ==> TreeHash(H, v, height) == H(v[0], v[1])
  {
    assert |v| == 2 ==> height == 1;
  }

  function Root(H: PairHash, vTxid: seq<uint256>, height: nat): uint256 {
    if vTxid == [] then 0
    else
      WidthPositive(|vTxid|, height);
      CalcHash(H, vTxid, height, 0)
  }

  lemma NoLeaves(height: nat)
    requires IsHeight(0, height)
    ensures height == 0 && TreeWidth(0, 0) == 0
  {
    WidthZero(0);
  }

  lemma RootIsLast(H: PairHash, vTxid: seq<uint256>, height: nat)
    requires IsHeight(|vTxid|, height)
    ensures vTxid == [] <==> Levels(H, vTxid, height) == []
    ensures vTxid != [] ==> Levels(H, vTxid, height)[|Levels(H, vTxid, height)| - 1] == Root(H, vTxid, height)
  {
    LevelsEnd(H, vTxid, height);
    if vTxid == [] {
      NoLeaves(height);
    } else {
      WidthPositive(|vTxid|, height);
      assert TreeWidth(|vTxid|, height) == 1;
      hide TreeWidth, Pair, CalcHash, Levels, LevelStart;
      NodeInLevels(H, vTxid, height, height, 0);
    }
  }

  // ---------- branches ----------

  /** min(nIndex ^ 1, nSize - 1): the node next to one, or the node itself at the end of an
      odd level. */
  function Sibling(pos: nat, width: nat): nat
    requires pos < width
  {
    var flipped := if pos % 2 == 0 then pos + 1 else pos - 1;
    if flipped < width - 1 then flipped else width - 1
  }

  /** The siblings on the way up from a node, from its height to below the top. */
  function Branch(H: PairHash, vTxid: seq<uint256>, low: nat, top: nat, pos: nat): (b: seq<uint256>)
    requires low <= top && pos < TreeWidth(|vTxid|, low)
    ensures |b| == top - low
    decreases top - low
  {
    if low == top then []
    else
      WidthStep(|vTxid|, low);
      [CalcHash(H, vTxid, low, Sibling(pos, TreeWidth(|vTxid|, low)))] + Branch(H, vTxid, low + 1, top, pos / 2)
  }

  /** CheckMerkleBranch for an index other than -1. */
  function Fold(H: PairHash, hash: uint256, vMerkleBranch: seq<uint256>, nIndex: nat): uint256
    decreases |vMerkleBranch|
  {
    if vMerkleBranch == [] then hash
    else Fold(H, if nIndex % 2 == 1 then Pair(H, vMerkleBranch[0], hash) else Pair(H, hash, vMerkleBranch[0]), vMerkleBranch[1..], nIndex / 2)
  }

  lemma ParentHash(H: PairHash, vTxid: seq<uint256>, height: nat, pos: nat)
    requires pos < TreeWidth(|vTxid|, height)
    ensures pos / 2 < TreeWidth(|vTxid|, height + 1)
    ensures
      var hash, other := CalcHash(H, vTxid, height, pos), CalcHash(H, vTxid, height, Sibling(pos, TreeWidth(|vTxid|, height)));
      CalcHash(H, vTxid, height + 1, pos / 2) == if pos % 2 == 1 then Pair(H, other, hash) else Pair(H, hash, other)
  {
    hide TreeWidth, Pair;
    WidthStep(|vTxid|, height);
  }

  /** A node's branch folds up to the top of the tree. */
  lemma {:induction false} BranchFolds(H: PairHash, vTxid: seq<uint256>, low: nat, top: nat, pos: nat)
    requires low <= top && pos < TreeWidth(|vTxid|, low) && TreeWidth(|vTxid|, top) == 1
    ensures Fold(H, CalcHash(H, vTxid, low, pos), Branch(H, vTxid, low, top, pos), pos) == CalcHash(H, vTxid, top, 0)
    decreases top - low
  {
    hide TreeWidth, Pair, CalcHash;
    if low < top {
      ParentHash(H, vTxid, low, pos);
      BranchFolds(H, vTxid, low + 1, top, pos / 2);
    }
  }

  ghost predicate Injective(H: PairHash) {
    forall a, b, c, d :: Pair(H, a, b) == Pair(H, c, d) ==> a == c && b == d
  }

  /** With an injective pair hash, only the true node at a position folds up to the root. */
  lemma {:induction false} FoldIsSound(H: PairHash, vTxid: seq<uint256>, low: nat, top: nat, pos: nat, hash: uint256, b: seq<uint256>)
    requires Injective(H) && low <= top && pos < TreeWidth(|vTxid|, low) && TreeWidth(|vTxid|, top) == 1 && |b| == top - low
    requires Fold(H, hash, b, pos) == CalcHash(H, vTxid, top, 0)
    ensures hash == CalcHash(H, vTxid, low, pos) && b == Branch(H, vTxid, low, top, pos)
    decreases top - low
  {
    hide TreeWidth, Pair, CalcHash;
    if low < top {
      ParentHash(H, vTxid, low, pos);
      FoldIsSound(H, vTxid, low + 1, top, pos / 2, if pos % 2 == 1 then Pair(H, b[0], hash) else Pair(H, hash, b[0]), b[1..]);
      assert b == [b[0]] + b[1..];
    }
  }

  lemma BranchStep(H: PairHash, vTxid: seq<uint256>, h: nat, height: nat, index: nat, nSize: nat) returns (entry: uint256)
    requires h < height && nSize == TreeWidth(|vTxid|, h) && index < nSize
    ensures TreeWidth(|vTxid|, h + 1) == (nSize + 1) / 2 && index / 2 < TreeWidth(|vTxid|, h + 1)
    ensures EntryIs(Levels(H, vTxid, height), LevelStart(|vTxid|, h), Sibling(index, nSize), entry)
    ensures Branch(H, vTxid, h, height, index) == [entry] + Branch(H, vTxid, h + 1, height, index / 2)
  {
    WidthStep(|vTxid|, h);
    hide TreeWidth, Pair, CalcHash, Levels, LevelStart;
    entry := CalcHash(H, vTxid, h, Sibling(index, nSize));
    NodeInLevels(H, vTxid, h, height, Sibling(index, nSize));
  }

  /** The loop of GetMerkleBranch stands at node `index` of height h, before `rest`. */
  ghost predicate BranchAt(H: PairHash, vTxid: seq<uint256>, height: nat, h: nat, j: nat, nSize: nat, index: nat, rest: seq<uint256>) {
    && h <= height && (h < height <==> nSize > 1)
    && nSize == TreeWidth(|vTxid|, h) && j == LevelStart(|vTxid|, h) && index < nSize
    && rest == Branch(H, vTxid, h, height, index)
  }

  lemma BranchMoves(H: PairHash, vTxid: seq<uint256>, height: nat, h: nat, j: nat, nSize: nat, index: nat, rest: seq<uint256>)
    requires IsHeight(|vTxid|, height) && BranchAt(H, vTxid, height, h, j, nSize, index, rest) && nSize > 1
    ensures rest != [] && EntryIs(Levels(H, vTxid, height), j, Sibling(index, nSize), rest[0])
    ensures BranchAt(H, vTxid, height, h + 1, j + nSize, (nSize + 1) / 2, index / 2, rest[1..])
    ensures index / 2 < (nSize + 1) / 2 && (nSize <= 2 ==> rest[1..] == [])
  {
    hide TreeWidth, Pair, CalcHash, Levels, LevelStart, Branch, IsHeight, Sibling;
    var entry := BranchStep(H, vTxid, h, height, index, nSize);
    LevelStarts(|vTxid|, h);
    TopReached(|vTxid|, h + 1, height);
    BranchEnds(H, vTxid, height, h + 1, j + nSize, (nSize + 1) / 2, index / 2, rest[1..]);
  }

  lemma BranchBegins(H: PairHash, vTxid: seq<uint256>, height: nat, nIndex: nat)
    requires IsHeight(|vTxid|, height) && nIndex < |vTxid|
    ensures nIndex < TreeWidth(|vTxid|, 0)
    ensures BranchAt(H, vTxid, height, 0, 0, |vTxid|, nIndex, Branch(H, vTxid, 0, height, nIndex))
  {
    WidthZero(|vTxid|);
    hide TreeWidth, Pair, CalcHash, Branch, IsHeight;
    LevelStarts(|vTxid|, 0);
    TopReached(|vTxid|, 0, height);
  }

  /** GetMerkleBranch, on the flat tree. */
  method GetMerkleBranch(H: PairHash, vTxid: seq<uint256>, vMerkleTree: seq<uint256>, ghost height: nat, nIndex: nat) returns (vMerkleBranch: seq<uint256>)
    requires IsHeight(|vTxid|, height) && vMerkleTree == Levels(H, vTxid, height) && nIndex < |vTxid|
    ensures nIndex < TreeWidth(|vTxid|, 0) && vMerkleBranch == Branch(H, vTxid, 0, height, nIndex)
  {
    BranchBegins(H, vTxid, height, nIndex);
    vMerkleBranch := [];
    var j, nSize := 0, |vTxid|;
    var index: nat := nIndex;
    ghost var h := 0;
    ghost var whole := Branch(H, vTxid, 0, height, nIndex);
    ghost var rest := whole;
    assert BranchAt(H, vTxid, height, h, j, nSize, index, rest) && (nSize <= 1 ==> rest == []);
    hide TreeWidth, Pair, CalcHash, Levels, LevelStart, Branch, IsHeight, BranchAt;
    while nSize > 1
      invariant index < nSize && (nSize <= 1 ==> rest == [])
      invariant BranchAt(H, vTxid, height, h, j, nSize, index, rest) && vMerkleBranch + rest == whole
      decreases nSize
    {
      var i := Sibling(index, nSize);
      BranchMoves(H, vTxid, height, h, j, nSize, index, rest);
      AppendOne(vMerkleBranch, rest);
      vMerkleBranch := vMerkleBranch + [vMerkleTree[j + i]];
      index := index / 2;
      j := j + nSize;
      nSize := (nSize + 1) / 2;
      h := h + 1;
      rest := rest[1..];
    }
  }

  lemma BranchEnds(H: PairHash, vTxid: seq<uint256>, height: nat, h: nat, j: nat, nSize: nat, index: nat, rest: seq<uint256>)
    requires BranchAt(H, vTxid, height, h, j, nSize, index, rest)
    ensures index < nSize && (nSize <= 1 ==> rest == [])
  {
  }

  lemma LevelStarts(n: nat, h: nat)
    ensures LevelStart(n, 0) == 0 && LevelStart(n, h + 1) == LevelStart(n, h) + TreeWidth(n, h)
  {
  }

  lemma TopReached(n: nat, h: nat, height: nat)
    requires IsHeight(n, height) && h <= height
    ensures h < height <==> TreeWidth(n, h) > 1
  {
  }

  lemma AppendOne(b: seq<uint256>, rest: seq<uint256>)
    requires rest != []
    ensures b + [rest[0]] + rest[1..] == b + rest
  {
  }

  method CheckMerkleBranch(H: PairHash, hash: uint256, vMerkleBranch: seq<uint256>, nIndex: int) returns (r: uint256)
    requires nIndex >= -1
    ensures r == if nIndex == -1 then 0 else Fold(H, hash, vMerkleBranch, nIndex)
  {
    if nIndex == -1 {
      return 0;
    }
    r := hash;
    var index: nat := nIndex;
    for k := 0 to |vMerkleBranch|
      invariant Fold(H, r, vMerkleBranch[k..], index) == Fold(H, hash, vMerkleBranch, nIndex)
    {
      var otherside := vMerkleBranch[k];
      assert vMerkleBranch[k..][1..] == vMerkleBranch[k + 1..];
      if index % 2 == 1 {
        r := Pair(H, otherside, r);
      } else {
        r := Pair(H, r, otherside);
      }
      index := index / 2;
    }
  }

  /** The branch extracted for any transaction leads from its id to the root. */
  method BranchOfTransaction(H: PairHash, vTxid: seq<uint256>, nIndex: nat) returns (root: uint256, vMerkleBranch: seq<uint256>, r: uint256)
    requires nIndex < |vTxid|
    ensures r == root && exists height: nat :: IsHeight(|vTxid|, height) && root == Root(H, vTxid, height)
  {
    var tree;
    ghost var height;
    tree, root, height := BuildMerkleTree(H, vTxid);
    vMerkleBranch := GetMerkleBranch(H, vTxid, tree, height, nIndex);
    r := CheckMerkleBranch(H, vTxid[nIndex], vMerkleBranch, nIndex);
    WidthPositive(|vTxid|, height);
    BranchFolds(H, vTxid, 0, height, nIndex);
  }
}
