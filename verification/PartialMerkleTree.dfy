/** Partial Merkle trees (main.cpp and main.h, CPartialMerkleTree; BIP 37, sections
    "Constructing a partial merkle tree object" and "Parsing a partial merkle tree object"). */
module PartialMerkleTree {
  import opened Arithmetic
  import opened MerkleTree

  const MAX_BLOCK_SIZE := 1_000_000

  /** The first leaf below a node. */
  function FirstLeaf(height: nat, pos: nat): nat {
    pos * Pow2(height)
  }

  ghost predicate MatchIn(vMatch: seq<bool>, lo: nat, hi: nat) {
    exists p :: lo <= p < hi && p < |vMatch| && vMatch[p]
  }

  /** A node above a matched transaction. */
  ghost predicate ParentOfMatch(vMatch: seq<bool>, height: nat, pos: nat) {
    MatchIn(vMatch, FirstLeaf(height, pos), FirstLeaf(height, pos + 1))
  }

  /** The matched ids among leaves lo to hi, in order. */
  function Matched(vTxid: seq<uint256>, vMatch: seq<bool>, lo: nat, hi: nat): seq<uint256>
    requires |vTxid| == |vMatch|
    decreases hi - lo
  {
    if lo >= hi || lo >= |vTxid| then []
    else (if vMatch[lo] then [vTxid[lo]] else []) + Matched(vTxid, vMatch, lo + 1, hi)
  }

  lemma {:induction false} MatchedJoins(vTxid: seq<uint256>, vMatch: seq<bool>, lo: nat, mid: nat, hi: nat)
    requires |vTxid| == |vMatch| && lo <= mid <= hi
    ensures Matched(vTxid, vMatch, lo, hi) == Matched(vTxid, vMatch, lo, mid) + Matched(vTxid, vMatch, mid, hi)
    decreases mid - lo
  {
    if lo < mid && lo < |vTxid| {
      MatchedJoins(vTxid, vMatch, lo + 1, mid, hi);
      AppendFirst(if vMatch[lo] then [vTxid[lo]] else [], Matched(vTxid, vMatch, lo + 1, mid), Matched(vTxid, vMatch, mid, hi));
    }
  }

  lemma AppendFirst(a: seq<uint256>, b: seq<uint256>, c: seq<uint256>)
    ensures a + (b + c) == (a + b) + c
  {
  }

  lemma {:induction false} NothingMatched(vTxid: seq<uint256>, vMatch: seq<bool>, lo: nat, hi: nat)
    requires |vTxid| == |vMatch|
    ensures Matched(vTxid, vMatch, lo, hi) == [] <==> !MatchIn(vMatch, lo, hi)
    decreases hi - lo
  {
    if lo < hi && lo < |vTxid| {
      NothingMatched(vTxid, vMatch, lo + 1, hi);
      if MatchIn(vMatch, lo, hi) && !vMatch[lo] {
        var p :| lo <= p < hi && p < |vMatch| && vMatch[p];
        assert MatchIn(vMatch, lo + 1, hi);
      }
    }
  }

  /** What a node's children cover. */
  lemma ChildLeaves(n: nat, height: nat, pos: nat)
    requires pos < TreeWidth(n, height + 1)
    ensures FirstLeaf(height + 1, pos) == FirstLeaf(height, 2 * pos) <= FirstLeaf(height, 2 * pos + 1) <= FirstLeaf(height, 2 * pos + 2) == FirstLeaf(height + 1, pos + 1)
    ensures 2 * pos < TreeWidth(n, height)
    ensures 2 * pos + 1 >= TreeWidth(n, height) ==> FirstLeaf(height, 2 * pos + 1) >= n
  {
    var p := Pow2(height);
    WidthStep(n, height);
    assert Pow2(height + 1) == 2 * p;
    WidthFormula(n, height);
    hide Pow2, TreeWidth;
    ChildProducts(p, pos);
    if 2 * pos + 1 >= TreeWidth(n, height) {
      MulMono(p, TreeWidth(n, height), 2 * pos + 1);
      assert p * (2 * pos + 1) == (2 * pos + 1) * p;
    }
  }

  lemma ChildProducts(p: nat, pos: nat)
    ensures pos * (2 * p) == (2 * pos) * p <= (2 * pos + 1) * p <= (2 * pos + 2) * p == (pos + 1) * (2 * p)
  {
  }

  lemma LeafBounds(n: nat, height: nat, pos: nat)
    requires pos < TreeWidth(n, height)
    ensures FirstLeaf(height, pos) < n && FirstLeaf(height, pos) < FirstLeaf(height, pos + 1)
  {
    var p, w := Pow2(height), TreeWidth(n, height);
    WidthFormula(n, height);
    MulMono(p, pos + 1, w);
    assert p * (pos + 1) == pos * p + p == (pos + 1) * p;
  }

  lemma Leaf(pos: nat)
    ensures FirstLeaf(0, pos) == pos
  {
  }

  // ---------- encoding ----------

  datatype Part = Part(bits: seq<bool>, hashes: seq<uint256>)

  /** The bits and hashes that stand for the subtree of a node; none for a missing one. */
  ghost function Encode(H: PairHash, vTxid: seq<uint256>, vMatch: seq<bool>, height: nat, pos: nat): Part
    decreases height
  {
    if pos >= TreeWidth(|vTxid|, height) then Part([], [])
    else if height == 0 || !ParentOfMatch(vMatch, height, pos) then Part([ParentOfMatch(vMatch, height, pos)], [CalcHash(H, vTxid, height, pos)])
    else
      var left := Encode(H, vTxid, vMatch, height - 1, pos * 2);
      var right := Encode(H, vTxid, vMatch, height - 1, pos * 2 + 1);
      Part([true] + left.bits + right.bits, left.hashes + right.hashes)
  }

  // ---------- decoding ----------

  /** Where a traversal of stored bits and hashes has got to, and what it found. */
  datatype Walk = Walk(hash: uint256, nBitsUsed: nat, nHashUsed: nat, vMatch: seq<uint256>, fBad: bool)

  function Decode(H: PairHash, n: nat, vBits: seq<bool>, vHash: seq<uint256>, height: nat, pos: nat, nBitsUsed: nat, nHashUsed: nat): Walk
    decreases height
  {
    if nBitsUsed >= |vBits| then Walk(0, nBitsUsed, nHashUsed, [], true)
    else if height == 0 || !vBits[nBitsUsed] then
      if nHashUsed >= |vHash| then Walk(0, nBitsUsed + 1, nHashUsed, [], true)
      else Walk(vHash[nHashUsed], nBitsUsed + 1, nHashUsed + 1, if height == 0 && vBits[nBitsUsed] then [vHash[nHashUsed]] else [], false)
    else
      var left := Decode(H, n, vBits, vHash, height - 1, pos * 2, nBitsUsed + 1, nHashUsed);
      if pos * 2 + 1 < TreeWidth(n, height - 1) then
        var right := Decode(H, n, vBits, vHash, height - 1, pos * 2 + 1, left.nBitsUsed, left.nHashUsed);
        Walk(Pair(H, left.hash, right.hash), right.nBitsUsed, right.nHashUsed, left.vMatch + right.vMatch, left.fBad || right.fBad)
      else Walk(Pair(H, left.hash, left.hash), left.nBitsUsed, left.nHashUsed, left.vMatch, left.fBad)
  }

  ghost predicate PartAt<T>(s: seq<T>, start: nat, part: seq<T>) {
    start + |part| <= |s| && s[start..start + |part|] == part
  }

  lemma PartSplits<T>(s: seq<T>, start: nat, a: seq<T>, b: seq<T>)
    requires PartAt(s, start, a + b)
    ensures PartAt(s, start, a) && PartAt(s, start + |a|, b)
  {
    assert s[start..start + |a|] == (a + b)[..|a|];
    assert s[start + |a|..start + |a| + |b|] == (a + b)[|a|..];
  }

  /** The matches of a node are its children's. */
  lemma MatchesOfChildren(vTxid: seq<uint256>, vMatch: seq<bool>, height: nat, pos: nat)
    requires |vTxid| == |vMatch| && pos < TreeWidth(|vTxid|, height + 1)
    ensures
      var left := Matched(vTxid, vMatch, FirstLeaf(height, 2 * pos), FirstLeaf(height, 2 * pos + 1));
      var right := Matched(vTxid, vMatch, FirstLeaf(height, 2 * pos + 1), FirstLeaf(height, 2 * pos + 2));
      && Matched(vTxid, vMatch, FirstLeaf(height + 1, pos), FirstLeaf(height + 1, pos + 1)) == left + right
      && (2 * pos + 1 >= TreeWidth(|vTxid|, height) ==> right == [])
  {
    ChildLeaves(|vTxid|, height, pos);
    hide TreeWidth, FirstLeaf;
    MatchedJoins(vTxid, vMatch, FirstLeaf(height, 2 * pos), FirstLeaf(height, 2 * pos + 1), FirstLeaf(height, 2 * pos + 2));
  }

  ghost function MatchedBelow(vTxid: seq<uint256>, vMatch: seq<bool>, height: nat, pos: nat): seq<uint256>
    requires |vTxid| == |vMatch|
  {
    Matched(vTxid, vMatch, FirstLeaf(height, pos), FirstLeaf(height, pos + 1))
  }

  lemma StoredLeaf(vTxid: seq<uint256>, vMatch: seq<bool>, height: nat, pos: nat)
    requires |vTxid| == |vMatch| && pos < TreeWidth(|vTxid|, height)
    ensures height == 0 ==> pos < |vTxid| && MatchedBelow(vTxid, vMatch, height, pos) == if ParentOfMatch(vMatch, height, pos) then [vTxid[pos]] else []
    ensures !ParentOfMatch(vMatch, height, pos) ==> MatchedBelow(vTxid, vMatch, height, pos) == []
  {
    NothingMatched(vTxid, vMatch, FirstLeaf(height, pos), FirstLeaf(height, pos + 1));
    if height == 0 {
      WidthZero(|vTxid|);
      Leaf(pos);
      Leaf(pos + 1);
      assert Matched(vTxid, vMatch, pos + 1, pos + 1) == [];
    }
  }

  /** Decoding at these positions gives the true hash and the matches, and uses up the
      node's encoding. */
  ghost predicate Decodes(H: PairHash, vTxid: seq<uint256>, vMatch: seq<bool>, height: nat, pos: nat,
                          vBits: seq<bool>, vHash: seq<uint256>, nBitsUsed: nat, nHashUsed: nat)
  {
    |vTxid| == |vMatch| && pos < TreeWidth(|vTxid|, height) &&
    var e := Encode(H, vTxid, vMatch, height, pos);
    Decode(H, |vTxid|, vBits, vHash, height, pos, nBitsUsed, nHashUsed)
      == Walk(CalcHash(H, vTxid, height, pos), nBitsUsed + |e.bits|, nHashUsed + |e.hashes|, MatchedBelow(vTxid, vMatch, height, pos), false)
  }

  lemma DecodeStored(H: PairHash, vTxid: seq<uint256>, vMatch: seq<bool>, height: nat, pos: nat,
                     vBits: seq<bool>, vHash: seq<uint256>, nBitsUsed: nat, nHashUsed: nat)
    requires |vTxid| == |vMatch| && pos < TreeWidth(|vTxid|, height)
    requires height == 0 || !ParentOfMatch(vMatch, height, pos)
    requires PartAt(vBits, nBitsUsed, [ParentOfMatch(vMatch, height, pos)]) && PartAt(vHash, nHashUsed, [CalcHash(H, vTxid, height, pos)])
    ensures Decodes(H, vTxid, vMatch, height, pos, vBits, vHash, nBitsUsed, nHashUsed)
  {
    StoredLeaf(vTxid, vMatch, height, pos);
    WidthZero(|vTxid|);
    assert vBits[nBitsUsed..nBitsUsed + 1][0] == vBits[nBitsUsed];
    assert vHash[nHashUsed..nHashUsed + 1][0] == vHash[nHashUsed];
    hide TreeWidth, FirstLeaf, ParentOfMatch, Pair, MatchedBelow;
  }

  lemma DecodeInner(H: PairHash, vTxid: seq<uint256>, vMatch: seq<bool>, height: nat, pos: nat,
                    vBits: seq<bool>, vHash: seq<uint256>, nBitsUsed: nat, nHashUsed: nat, left: Part)
    requires |vTxid| == |vMatch| && pos < TreeWidth(|vTxid|, height + 1) && pos * 2 < TreeWidth(|vTxid|, height)
    requires ParentOfMatch(vMatch, height + 1, pos) && nBitsUsed < |vBits| && vBits[nBitsUsed]
    requires left == Encode(H, vTxid, vMatch, height, pos * 2)
    requires Decodes(H, vTxid, vMatch, height, pos * 2, vBits, vHash, nBitsUsed + 1, nHashUsed)
    requires pos * 2 + 1 < TreeWidth(|vTxid|, height) ==>
               Decodes(H, vTxid, vMatch, height, pos * 2 + 1, vBits, vHash, nBitsUsed + 1 + |left.bits|, nHashUsed + |left.hashes|)
    ensures Decodes(H, vTxid, vMatch, height + 1, pos, vBits, vHash, nBitsUsed, nHashUsed)
  {
    hide TreeWidth, FirstLeaf, ParentOfMatch, Pair, Matched, MatchedBelow, Encode, Decode, CalcHash;
    MatchesBelow(vTxid, vMatch, height, pos);
    EncodeLengths(H, vTxid, vMatch, height, pos);
    CalcUnfolds(H, vTxid, height, pos);
    DecodeUnfolds(H, |vTxid|, vBits, vHash, height, pos, nBitsUsed, nHashUsed);
    if pos * 2 + 1 >= TreeWidth(|vTxid|, height) {
      NoPart(H, vTxid, vMatch, height, pos * 2 + 1);
      AppendNothing(MatchedBelow(vTxid, vMatch, height, pos * 2));
    }
  }

  lemma AppendNothing(s: seq<uint256>)
    ensures s + [] == s
  {
  }

  lemma NoPart(H: PairHash, vTxid: seq<uint256>, vMatch: seq<bool>, height: nat, pos: nat)
    requires pos >= TreeWidth(|vTxid|, height)
    ensures Encode(H, vTxid, vMatch, height, pos) == Part([], [])
  {
  }

  lemma EncodeLengths(H: PairHash, vTxid: seq<uint256>, vMatch: seq<bool>, height: nat, pos: nat)
    requires pos < TreeWidth(|vTxid|, height + 1) && ParentOfMatch(vMatch, height + 1, pos)
    ensures
      var e, l, r := Encode(H, vTxid, vMatch, height + 1, pos), Encode(H, vTxid, vMatch, height, pos * 2), Encode(H, vTxid, vMatch, height, pos * 2 + 1);
      |e.bits| == 1 + |l.bits| + |r.bits| && |e.hashes| == |l.hashes| + |r.hashes|
  {
    hide TreeWidth, FirstLeaf, ParentOfMatch, CalcHash;
  }

  lemma MatchesBelow(vTxid: seq<uint256>, vMatch: seq<bool>, height: nat, pos: nat)
    requires |vTxid| == |vMatch| && pos < TreeWidth(|vTxid|, height + 1)
    ensures MatchedBelow(vTxid, vMatch, height + 1, pos)
              == MatchedBelow(vTxid, vMatch, height, pos * 2) + MatchedBelow(vTxid, vMatch, height, pos * 2 + 1)
    ensures pos * 2 + 1 >= TreeWidth(|vTxid|, height) ==> MatchedBelow(vTxid, vMatch, height, pos * 2 + 1) == []
  {
    MatchesOfChildren(vTxid, vMatch, height, pos);
    hide TreeWidth, FirstLeaf, Matched;
  }

  lemma CalcUnfolds(H: PairHash, vTxid: seq<uint256>, height: nat, pos: nat)
    requires pos < TreeWidth(|vTxid|, height + 1) && pos * 2 < TreeWidth(|vTxid|, height)
    ensures CalcHash(H, vTxid, height + 1, pos)
              == Pair(H, CalcHash(H, vTxid, height, pos * 2),
                      if pos * 2 + 1 < TreeWidth(|vTxid|, height) then CalcHash(H, vTxid, height, pos * 2 + 1) else CalcHash(H, vTxid, height, pos * 2))
  {
    hide TreeWidth, Pair;
  }

  lemma DecodeUnfolds(H: PairHash, n: nat, vBits: seq<bool>, vHash: seq<uint256>, height: nat, pos: nat, nBitsUsed: nat, nHashUsed: nat)
    requires nBitsUsed < |vBits| && vBits[nBitsUsed]
    ensures
      var left := Decode(H, n, vBits, vHash, height, pos * 2, nBitsUsed + 1, nHashUsed);
      var right := Decode(H, n, vBits, vHash, height, pos * 2 + 1, left.nBitsUsed, left.nHashUsed);
      Decode(H, n, vBits, vHash, height + 1, pos, nBitsUsed, nHashUsed)
        == if pos * 2 + 1 < TreeWidth(n, height)
           then Walk(Pair(H, left.hash, right.hash), right.nBitsUsed, right.nHashUsed, left.vMatch + right.vMatch, left.fBad || right.fBad)
           else Walk(Pair(H, left.hash, left.hash), left.nBitsUsed, left.nHashUsed, left.vMatch, left.fBad)
  {
    hide TreeWidth, Pair;
  }

  /** The encoding of a node with a match below, and where its children's lie. */
  lemma InnerParts(H: PairHash, vTxid: seq<uint256>, vMatch: seq<bool>, height: nat, pos: nat,
                   vBits: seq<bool>, vHash: seq<uint256>, nBitsUsed: nat, nHashUsed: nat) returns (left: Part, right: Part)
    requires pos < TreeWidth(|vTxid|, height + 1) && ParentOfMatch(vMatch, height + 1, pos)
    requires PartAt(vBits, nBitsUsed, Encode(H, vTxid, vMatch, height + 1, pos).bits)
    requires PartAt(vHash, nHashUsed, Encode(H, vTxid, vMatch, height + 1, pos).hashes)
    ensures nBitsUsed < |vBits| && vBits[nBitsUsed] && pos * 2 < TreeWidth(|vTxid|, height)
    ensures left == Encode(H, vTxid, vMatch, height, pos * 2) && right == Encode(H, vTxid, vMatch, height, pos * 2 + 1)
    ensures PartAt(vBits, nBitsUsed + 1, left.bits) && PartAt(vHash, nHashUsed, left.hashes)
    ensures PartAt(vBits, nBitsUsed + 1 + |left.bits|, right.bits) && PartAt(vHash, nHashUsed + |left.hashes|, right.hashes)
  {
    hide PartAt, FirstLeaf, ParentOfMatch, CalcHash;
    EncodeUnfolds(H, vTxid, vMatch, height, pos);
    ChildExists(|vTxid|, height, pos);
    hide TreeWidth, Encode;
    left, right := Encode(H, vTxid, vMatch, height, pos * 2), Encode(H, vTxid, vMatch, height, pos * 2 + 1);
    HeadAndParts(vBits, nBitsUsed, true, left.bits, right.bits);
    PartSplits(vHash, nHashUsed, left.hashes, right.hashes);
  }

  lemma EncodeUnfolds(H: PairHash, vTxid: seq<uint256>, vMatch: seq<bool>, height: nat, pos: nat)
    requires pos < TreeWidth(|vTxid|, height + 1) && ParentOfMatch(vMatch, height + 1, pos)
    ensures Encode(H, vTxid, vMatch, height + 1, pos)
              == Part([true] + Encode(H, vTxid, vMatch, height, pos * 2).bits + Encode(H, vTxid, vMatch, height, pos * 2 + 1).bits,
                      Encode(H, vTxid, vMatch, height, pos * 2).hashes + Encode(H, vTxid, vMatch, height, pos * 2 + 1).hashes)
  {
    hide TreeWidth, FirstLeaf, ParentOfMatch, CalcHash;
  }

  lemma ChildExists(n: nat, height: nat, pos: nat)
    requires pos < TreeWidth(n, height + 1)
    ensures pos * 2 < TreeWidth(n, height)
  {
    WidthStep(n, height);
    hide TreeWidth;
  }

  lemma HeadAndParts<T>(s: seq<T>, start: nat, x: T, a: seq<T>, b: seq<T>)
    requires PartAt(s, start, [x] + a + b)
    ensures start < |s| && s[start] == x && PartAt(s, start + 1, a) && PartAt(s, start + 1 + |a|, b)
  {
    assert [x] + a + b == [x] + (a + b);
    hide PartAt;
    PartSplits(s, start, [x], a + b);
    PartSplits(s, start + 1, a, b);
    PartHead(s, start, x);
  }

  lemma PartHead<T>(s: seq<T>, start: nat, x: T)
    requires PartAt(s, start, [x])
    ensures start < |s| && s[start] == x
  {
    assert s[start..start + 1][0] == s[start];
  }

  /** Decoding what was encoded gives the true hash and the matches, and uses it all up. */
  lemma {:induction false} DecodeAfterEncode(H: PairHash, vTxid: seq<uint256>, vMatch: seq<bool>, height: nat, pos: nat,
                                             vBits: seq<bool>, vHash: seq<uint256>, nBitsUsed: nat, nHashUsed: nat)
    requires |vTxid| == |vMatch| && pos < TreeWidth(|vTxid|, height)
    requires PartAt(vBits, nBitsUsed, Encode(H, vTxid, vMatch, height, pos).bits)
    requires PartAt(vHash, nHashUsed, Encode(H, vTxid, vMatch, height, pos).hashes)
    ensures Decodes(H, vTxid, vMatch, height, pos, vBits, vHash, nBitsUsed, nHashUsed)
    decreases height
  {
    hide TreeWidth, FirstLeaf, ParentOfMatch, CalcHash, Decodes, PartAt;
    if height == 0 || !ParentOfMatch(vMatch, height, pos) {
      DecodeStored(H, vTxid, vMatch, height, pos, vBits, vHash, nBitsUsed, nHashUsed);
    } else {
      var left, right := InnerParts(H, vTxid, vMatch, height - 1, pos, vBits, vHash, nBitsUsed, nHashUsed);
      hide Encode;
      DecodeAfterEncode(H, vTxid, vMatch, height - 1, pos * 2, vBits, vHash, nBitsUsed + 1, nHashUsed);
      if pos * 2 + 1 < TreeWidth(|vTxid|, height - 1) {
        DecodeAfterEncode(H, vTxid, vMatch, height - 1, pos * 2 + 1, vBits, vHash, nBitsUsed + 1 + |left.bits|, nHashUsed + |left.hashes|);
      }
      DecodeInner(H, vTxid, vMatch, height - 1, pos, vBits, vHash, nBitsUsed, nHashUsed, left);
    }
  }

  // ---------- soundness ----------

  /** Positions of ids in the block, in block order, within a range of leaves. */
  ghost predicate InOrder(vTxid: seq<uint256>, ids: seq<uint256>, at: seq<nat>, lo: nat, hi: nat) {
    && |at| == |ids|
    && (forall i | 0 <= i < |at| :: lo <= at[i] < hi && at[i] < |vTxid| && vTxid[at[i]] == ids[i])
    && (forall i, j | 0 <= i < j < |at| :: at[i] < at[j])
  }

  /** The ids are a subsequence of the block's, from within a range of leaves. */
  ghost predicate Subsequence(vTxid: seq<uint256>, ids: seq<uint256>, lo: nat, hi: nat) {
    exists at: seq<nat> :: InOrder(vTxid, ids, at, lo, hi)
  }

  lemma SubsequenceJoins(vTxid: seq<uint256>, a: seq<uint256>, b: seq<uint256>, lo: nat, mid: nat, hi: nat)
    requires lo <= mid <= hi && Subsequence(vTxid, a, lo, mid) && Subsequence(vTxid, b, mid, hi)
    ensures Subsequence(vTxid, a + b, lo, hi)
  {
    var atA: seq<nat> :| InOrder(vTxid, a, atA, lo, mid);
    var atB: seq<nat> :| InOrder(vTxid, b, atB, mid, hi);
    assert InOrder(vTxid, a + b, atA + atB, lo, hi);
  }

  lemma NoneIsSubsequence(vTxid: seq<uint256>, lo: nat, hi: nat)
    ensures Subsequence(vTxid, [], lo, hi)
  {
    assert InOrder(vTxid, [], [], lo, hi);
  }

  lemma OneIsSubsequence(vTxid: seq<uint256>, pos: nat)
    requires pos < |vTxid|
    ensures Subsequence(vTxid, [vTxid[pos]], pos, pos + 1)
  {
    assert InOrder(vTxid, [vTxid[pos]], [pos], pos, pos + 1);
  }

  /** A decoded node's ids are from below it. */
  ghost predicate WalkSound(vTxid: seq<uint256>, w: Walk, height: nat, pos: nat) {
    Subsequence(vTxid, w.vMatch, FirstLeaf(height, pos), FirstLeaf(height, pos + 1))
  }

  lemma WalkJoins(vTxid: seq<uint256>, height: nat, pos: nat, w: Walk, left: Walk, right: Walk)
    requires pos < TreeWidth(|vTxid|, height + 1)
    requires WalkSound(vTxid, left, height, pos * 2)
    requires if pos * 2 + 1 < TreeWidth(|vTxid|, height)
             then WalkSound(vTxid, right, height, pos * 2 + 1) && w.vMatch == left.vMatch + right.vMatch
             else w.vMatch == left.vMatch
    ensures WalkSound(vTxid, w, height + 1, pos)
  {
    ChildLeaves(|vTxid|, height, pos);
    var lo, mid, hi := FirstLeaf(height, pos * 2), FirstLeaf(height, pos * 2 + 1), FirstLeaf(height, pos * 2 + 2);
    hide Subsequence, TreeWidth, FirstLeaf;
    NoneIsSubsequence(vTxid, mid, hi);
    AppendNothing(left.vMatch);
    SubsequenceJoins(vTxid, left.vMatch, if pos * 2 + 1 < TreeWidth(|vTxid|, height) then right.vMatch else [], lo, mid, hi);
  }

  lemma LeafIsSound(H: PairHash, vTxid: seq<uint256>, vBits: seq<bool>, vHash: seq<uint256>, pos: nat, nBitsUsed: nat, nHashUsed: nat)
    requires pos < TreeWidth(|vTxid|, 0)
    requires !Decode(H, |vTxid|, vBits, vHash, 0, pos, nBitsUsed, nHashUsed).fBad
    requires Decode(H, |vTxid|, vBits, vHash, 0, pos, nBitsUsed, nHashUsed).hash == CalcHash(H, vTxid, 0, pos)
    ensures WalkSound(vTxid, Decode(H, |vTxid|, vBits, vHash, 0, pos, nBitsUsed, nHashUsed), 0, pos)
  {
    Leaf(pos);
    Leaf(pos + 1);
    NoneIsSubsequence(vTxid, pos, pos + 1);
    OneIsSubsequence(vTxid, pos);
    hide Pair, FirstLeaf, Subsequence;
  }

  lemma PairsEqual(H: PairHash, a: uint256, b: uint256, c: uint256, d: uint256)
    requires Injective(H) && Pair(H, a, b) == Pair(H, c, d)
    ensures a == c && b == d
  {
  }

  /** With an injective hash the children of a true hash are true. */
  lemma ChildrenTrue(H: PairHash, vTxid: seq<uint256>, height: nat, pos: nat, w: Walk, left: Walk, right: Walk)
    requires Injective(H) && pos < TreeWidth(|vTxid|, height + 1) && w.hash == CalcHash(H, vTxid, height + 1, pos)
    requires w.hash == if pos * 2 + 1 < TreeWidth(|vTxid|, height) then Pair(H, left.hash, right.hash) else Pair(H, left.hash, left.hash)
    ensures pos * 2 < TreeWidth(|vTxid|, height) && left.hash == CalcHash(H, vTxid, height, pos * 2)
    ensures pos * 2 + 1 < TreeWidth(|vTxid|, height) ==> right.hash == CalcHash(H, vTxid, height, pos * 2 + 1)
  {
    ChildExists(|vTxid|, height, pos);
    CalcUnfolds(H, vTxid, height, pos);
    hide Pair, Injective, CalcHash, TreeWidth;
    if pos * 2 + 1 < TreeWidth(|vTxid|, height) {
      PairsEqual(H, left.hash, right.hash, CalcHash(H, vTxid, height, pos * 2), CalcHash(H, vTxid, height, pos * 2 + 1));
    } else {
      PairsEqual(H, left.hash, left.hash, CalcHash(H, vTxid, height, pos * 2), CalcHash(H, vTxid, height, pos * 2));
    }
  }

  /** Stored bits and hashes that decode to a node's true hash yield only ids from below it. */
  lemma {:induction false} DecodeIsSound(H: PairHash, vTxid: seq<uint256>, vBits: seq<bool>, vHash: seq<uint256>,
                                         height: nat, pos: nat, nBitsUsed: nat, nHashUsed: nat)
    requires Injective(H) && pos < TreeWidth(|vTxid|, height)
    requires !Decode(H, |vTxid|, vBits, vHash, height, pos, nBitsUsed, nHashUsed).fBad
    requires Decode(H, |vTxid|, vBits, vHash, height, pos, nBitsUsed, nHashUsed).hash == CalcHash(H, vTxid, height, pos)
    ensures WalkSound(vTxid, Decode(H, |vTxid|, vBits, vHash, height, pos, nBitsUsed, nHashUsed), height, pos)
    decreases height
  {
    hide Pair, Injective, Subsequence;
    if height == 0 {
      LeafIsSound(H, vTxid, vBits, vHash, pos, nBitsUsed, nHashUsed);
    } else if vBits[nBitsUsed] {
      var h := height - 1;
      DecodeUnfolds(H, |vTxid|, vBits, vHash, h, pos, nBitsUsed, nHashUsed);
      hide TreeWidth, FirstLeaf, CalcHash, Decode, WalkSound;
      var w := Decode(H, |vTxid|, vBits, vHash, height, pos, nBitsUsed, nHashUsed);
      var left := Decode(H, |vTxid|, vBits, vHash, h, pos * 2, nBitsUsed + 1, nHashUsed);
      var right := Decode(H, |vTxid|, vBits, vHash, h, pos * 2 + 1, left.nBitsUsed, left.nHashUsed);
      ChildrenTrue(H, vTxid, h, pos, w, left, right);
      DecodeIsSound(H, vTxid, vBits, vHash, h, pos * 2, nBitsUsed + 1, nHashUsed);
      if pos * 2 + 1 < TreeWidth(|vTxid|, h) {
        DecodeIsSound(H, vTxid, vBits, vHash, h, pos * 2 + 1, left.nBitsUsed, left.nHashUsed);
      }
      WalkJoins(vTxid, h, pos, w, left, right);
    } else {
      NoneIsSubsequence(vTxid, FirstLeaf(height, pos), FirstLeaf(height, pos + 1));
    }
  }

  // ---------- sizes ----------

  function LeavesBelow(n: nat, height: nat, pos: nat): nat {
    var lo, hi := FirstLeaf(height, pos), FirstLeaf(height, pos + 1);
    if n <= lo || hi <= lo then 0 else if n < hi then n - lo else hi - lo
  }

  lemma LeavesOfChildren(n: nat, height: nat, pos: nat)
    requires pos < TreeWidth(n, height + 1)
    ensures LeavesBelow(n, height + 1, pos) == LeavesBelow(n, height, 2 * pos) + LeavesBelow(n, height, 2 * pos + 1)
  {
    ChildLeaves(n, height, pos);
    hide FirstLeaf, TreeWidth;
  }

  lemma SizesAdd(height: nat, a: nat, b: nat, l: nat, r: nat)
    requires a <= 1 + l * height && b <= 1 + r * height && l + r >= 1
    ensures a + b <= 1 + (l + r) * (height + 1)
  {
    assert (l + r) * (height + 1) == l * height + r * height + (l + r);
  }

  /** At most one hash per leaf, at most one more than the height for each match, and at
      least a bit per hash. */
  ghost predicate SizesOk(e: Part, leaves: nat, matches: nat, height: nat) {
    |e.hashes| <= leaves && |e.hashes| <= 1 + matches * height && |e.hashes| <= |e.bits|
  }

  lemma SizesJoin(e: Part, l: Part, r: Part, leavesL: nat, leavesR: nat, matchesL: nat, matchesR: nat, height: nat)
    requires SizesOk(l, leavesL, matchesL, height) && SizesOk(r, leavesR, matchesR, height) && matchesL + matchesR >= 1
    requires |e.bits| == 1 + |l.bits| + |r.bits| && |e.hashes| == |l.hashes| + |r.hashes|
    ensures SizesOk(e, leavesL + leavesR, matchesL + matchesR, height + 1)
  {
    SizesAdd(height, |l.hashes|, |r.hashes|, matchesL, matchesR);
  }

  lemma StoredSizes(H: PairHash, vTxid: seq<uint256>, vMatch: seq<bool>, height: nat, pos: nat)
    requires |vTxid| == |vMatch|
    requires pos >= TreeWidth(|vTxid|, height) || height == 0 || !ParentOfMatch(vMatch, height, pos)
    ensures SizesOk(Encode(H, vTxid, vMatch, height, pos), LeavesBelow(|vTxid|, height, pos), |MatchedBelow(vTxid, vMatch, height, pos)|, height)
  {
    MulMono(height, 0, |MatchedBelow(vTxid, vMatch, height, pos)|);
    if pos < TreeWidth(|vTxid|, height) { LeafBounds(|vTxid|, height, pos); }
    hide TreeWidth, FirstLeaf, ParentOfMatch, MatchedBelow, CalcHash;
  }

  lemma SomethingMatched(vTxid: seq<uint256>, vMatch: seq<bool>, height: nat, pos: nat)
    requires |vTxid| == |vMatch| && ParentOfMatch(vMatch, height, pos)
    ensures |MatchedBelow(vTxid, vMatch, height, pos)| >= 1
  {
    NothingMatched(vTxid, vMatch, FirstLeaf(height, pos), FirstLeaf(height, pos + 1));
  }

  lemma CountsOfChildren(vTxid: seq<uint256>, vMatch: seq<bool>, height: nat, pos: nat)
    requires |vTxid| == |vMatch| && pos < TreeWidth(|vTxid|, height + 1) && ParentOfMatch(vMatch, height + 1, pos)
    ensures
      var l, r := |MatchedBelow(vTxid, vMatch, height, pos * 2)|, |MatchedBelow(vTxid, vMatch, height, pos * 2 + 1)|;
      |MatchedBelow(vTxid, vMatch, height + 1, pos)| == l + r && l + r >= 1
    ensures LeavesBelow(|vTxid|, height + 1, pos) == LeavesBelow(|vTxid|, height, pos * 2) + LeavesBelow(|vTxid|, height, pos * 2 + 1)
  {
    SomethingMatched(vTxid, vMatch, height + 1, pos);
    LeavesOfChildren(|vTxid|, height, pos);
    MatchesBelow(vTxid, vMatch, height, pos);
    hide *;
  }

  lemma {:induction false} EncodedSizes(H: PairHash, vTxid: seq<uint256>, vMatch: seq<bool>, height: nat, pos: nat)
    requires |vTxid| == |vMatch|
    ensures SizesOk(Encode(H, vTxid, vMatch, height, pos), LeavesBelow(|vTxid|, height, pos), |MatchedBelow(vTxid, vMatch, height, pos)|, height)
    decreases height
  {
    hide *;
    if pos < TreeWidth(|vTxid|, height) && height > 0 && ParentOfMatch(vMatch, height, pos) {
      var h := height - 1;
      EncodedSizes(H, vTxid, vMatch, h, pos * 2);
      EncodedSizes(H, vTxid, vMatch, h, pos * 2 + 1);
      EncodeLengths(H, vTxid, vMatch, h, pos);
      CountsOfChildren(vTxid, vMatch, h, pos);
      SizesJoin(Encode(H, vTxid, vMatch, height, pos), Encode(H, vTxid, vMatch, h, pos * 2), Encode(H, vTxid, vMatch, h, pos * 2 + 1),
                LeavesBelow(|vTxid|, h, pos * 2), LeavesBelow(|vTxid|, h, pos * 2 + 1),
                |MatchedBelow(vTxid, vMatch, h, pos * 2)|, |MatchedBelow(vTxid, vMatch, h, pos * 2 + 1)|, h);
    } else {
      StoredSizes(H, vTxid, vMatch, height, pos);
    }
  }

  // ---------- whole trees ----------

  lemma {:induction false} MatchedUpToEnd(vTxid: seq<uint256>, vMatch: seq<bool>, lo: nat, hi: nat)
    requires |vTxid| == |vMatch| && hi >= |vTxid|
    ensures Matched(vTxid, vMatch, lo, hi) == Matched(vTxid, vMatch, lo, |vTxid|)
    decreases |vTxid| - lo
  {
    if lo < |vTxid| { MatchedUpToEnd(vTxid, vMatch, lo + 1, hi); }
  }

  /** The root covers all leaves. */
  lemma RootLeaves(n: nat, height: nat)
    requires n >= 1 && IsHeight(n, height)
    ensures TreeWidth(n, height) == 1 && FirstLeaf(height, 0) == 0 && FirstLeaf(height, 1) >= n
  {
    WidthPositive(n, height);
    WidthFormula(n, height);
    hide TreeWidth;
  }

  /** What ExtractMatches checks, besides fBad, about a tree of `height`. */
  predicate Accepts(H: PairHash, n: nat, vBits: seq<bool>, vHash: seq<uint256>, height: nat) {
    && n != 0 && n <= MAX_BLOCK_SIZE / 60 && |vHash| <= n && |vHash| <= |vBits|
    && var w := Decode(H, n, vBits, vHash, height, 0, 0, 0);
       !w.fBad && (w.nBitsUsed + 7) / 8 == (|vBits| + 7) / 8 && w.nHashUsed == |vHash|
  }

  /** An encoded tree is accepted and gives the root and the matches, padding or not. */
  lemma EncodedIsAccepted(H: PairHash, vTxid: seq<uint256>, vMatch: seq<bool>, height: nat, vBits: seq<bool>)
    requires 1 <= |vTxid| == |vMatch| <= MAX_BLOCK_SIZE / 60 && IsHeight(|vTxid|, height)
    requires Encode(H, vTxid, vMatch, height, 0).bits <= vBits
    requires (|Encode(H, vTxid, vMatch, height, 0).bits| + 7) / 8 == (|vBits| + 7) / 8
    ensures
      var vHash := Encode(H, vTxid, vMatch, height, 0).hashes;
      var w := Decode(H, |vTxid|, vBits, vHash, height, 0, 0, 0);
      && Accepts(H, |vTxid|, vBits, vHash, height)
      && w.hash == Root(H, vTxid, height) && w.vMatch == Matched(vTxid, vMatch, 0, |vTxid|)
      && |vHash| <= 1 + |w.vMatch| * height
  {
    var e := Encode(H, vTxid, vMatch, height, 0);
    RootLeaves(|vTxid|, height);
    EncodedSizes(H, vTxid, vMatch, height, 0);
    MatchedUpToEnd(vTxid, vMatch, 0, FirstLeaf(height, 1));
    DecodeAfterEncode(H, vTxid, vMatch, height, 0, vBits, e.hashes, 0, 0);
    hide TreeWidth, FirstLeaf, Encode, Decode, CalcHash, Matched, IsHeight;
  }

  /** Whatever was stored, if it is accepted with the block's root then the ids are a
      subsequence of the block's. */
  lemma AcceptedIsSubsequence(H: PairHash, vTxid: seq<uint256>, height: nat, vBits: seq<bool>, vHash: seq<uint256>)
    requires Injective(H) && vTxid != [] && IsHeight(|vTxid|, height) && Accepts(H, |vTxid|, vBits, vHash, height)
    requires Decode(H, |vTxid|, vBits, vHash, height, 0, 0, 0).hash == Root(H, vTxid, height)
    ensures Subsequence(vTxid, Decode(H, |vTxid|, vBits, vHash, height, 0, 0, 0).vMatch, 0, |vTxid|)
  {
    RootLeaves(|vTxid|, height);
    DecodeIsSound(H, vTxid, vBits, vHash, height, 0, 0, 0);
    hide Decode, CalcHash, TreeWidth, FirstLeaf, Injective;
    SubsequenceNarrows(vTxid, Decode(H, |vTxid|, vBits, vHash, height, 0, 0, 0).vMatch, FirstLeaf(height, 1));
  }

  lemma SubsequenceNarrows(vTxid: seq<uint256>, ids: seq<uint256>, hi: nat)
    requires Subsequence(vTxid, ids, 0, hi)
    ensures Subsequence(vTxid, ids, 0, |vTxid|)
  {
    var at: seq<nat> :| InOrder(vTxid, ids, at, 0, hi);
    assert InOrder(vTxid, ids, at, 0, |vTxid|);
  }

  // ---------- bytes ----------

  /** A byte, lowest bit first. */
  type Byte = b: seq<bool> | |b| == 8 witness [false, false, false, false, false, false, false, false]

  /** The bits of a byte sequence. */
  function Unpack(vBytes: seq<Byte>): (r: seq<bool>)
    ensures |r| == 8 * |vBytes|
  {
    seq(8 * |vBytes|, p requires 0 <= p < 8 * |vBytes| => vBytes[p / 8][p % 8])
  }

  /** Packed bits come back with padding that fills the last byte. */
  ghost predicate PackedAs(vBits: seq<bool>, vBytes: seq<Byte>) {
    |vBytes| == (|vBits| + 7) / 8 && vBits <= Unpack(vBytes) && forall p | |vBits| <= p < 8 * |vBytes| :: !Unpack(vBytes)[p]
  }

  method PackBits(vBits: seq<bool>) returns (vBytes: seq<Byte>)
    ensures PackedAs(vBits, vBytes)
  {
    var blank: Byte := [false, false, false, false, false, false, false, false];
    vBytes := seq((|vBits| + 7) / 8, _ => blank);
    for p := 0 to |vBits|
      invariant |vBytes| == (|vBits| + 7) / 8
      invariant forall q | 0 <= q < 8 * |vBytes| :: Unpack(vBytes)[q] == (q < p && vBits[q])
    {
      ghost var before := vBytes;
      var old8: Byte := vBytes[p / 8];
      var new8: Byte := old8[p % 8 := old8[p % 8] || vBits[p]];
      vBytes := vBytes[p / 8 := new8];
      forall q | 0 <= q < 8 * |vBytes| ensures Unpack(vBytes)[q] == (q < p + 1 && vBits[q]) {
        assert Unpack(before)[q] == (q < p && vBits[q]);
        assert Unpack(before)[q] == before[q / 8][q % 8];
        assert q / 8 == p / 8 && q % 8 == p % 8 ==> q == p;
      }
    }
  }

  /** The variables of a traversal after it found w. */
  ghost predicate Extends(vMatch: seq<uint256>, fBad: bool, w: Walk, hash: uint256, nBitsUsed: nat, nHashUsed: nat, vMatchOut: seq<uint256>, fBadOut: bool) {
    hash == w.hash && nBitsUsed == w.nBitsUsed && nHashUsed == w.nHashUsed && vMatchOut == vMatch + w.vMatch && fBadOut == (fBad || w.fBad)
  }

  class CPartialMerkleTree {
    var nTransactions: nat
    var vBits: seq<bool>
    var vHash: seq<uint256>
    var fBad: bool

    /** Whether a node has a match below it, leaf by leaf. */
    method HasMatchBelow(height: nat, pos: nat, vMatch: seq<bool>) returns (fParentOfMatch: bool)
      requires nTransactions == |vMatch|
      ensures fParentOfMatch == ParentOfMatch(vMatch, height, pos)
    {
      fParentOfMatch := false;
      var lo, hi := FirstLeaf(height, pos), FirstLeaf(height, pos + 1);
      hide FirstLeaf;
      var p := lo;
      while p < hi && p < nTransactions
        invariant lo <= p && (p <= hi || p == lo)
        invariant fParentOfMatch == MatchIn(vMatch, lo, p)
        decreases hi - p
      {
        MatchNext(vMatch, lo, p);
        fParentOfMatch := fParentOfMatch || vMatch[p];
        p := p + 1;
      }
    }

    method TraverseAndBuild(H: PairHash, height: nat, pos: nat, vTxid: seq<uint256>, vMatch: seq<bool>)
      requires nTransactions == |vTxid| == |vMatch| && pos < TreeWidth(|vTxid|, height)
      modifies this`vBits, this`vHash
      ensures vBits == old(vBits) + Encode(H, vTxid, vMatch, height, pos).bits
      ensures vHash == old(vHash) + Encode(H, vTxid, vMatch, height, pos).hashes
      decreases height
    {
      hide TreeWidth, CalcHash, ParentOfMatch;
      var fParentOfMatch := HasMatchBelow(height, pos, vMatch);
      vBits := vBits + [fParentOfMatch];
      if height == 0 || !fParentOfMatch {
        vHash := vHash + [CalcHash(H, vTxid, height, pos)];
      } else {
        EncodeUnfolds(H, vTxid, vMatch, height - 1, pos);
        ChildExists(|vTxid|, height - 1, pos);
        WidthFormula(nTransactions, height - 1);
        NoSecondPart(H, vTxid, vMatch, height - 1, pos * 2 + 1);
        hide Encode, CalcTreeWidth;
        ghost var left, right := Encode(H, vTxid, vMatch, height - 1, pos * 2), Encode(H, vTxid, vMatch, height - 1, pos * 2 + 1);
        ghost var before, hashesBefore := old(vBits), old(vHash);
        TraverseAndBuild(H, height - 1, pos * 2, vTxid, vMatch);
        BuiltSoFar(before, [true], left.bits, right.bits);
        BuiltSoFar(hashesBefore, [], left.hashes, right.hashes);
        if pos * 2 + 1 < CalcTreeWidth(nTransactions, height - 1) {
          TraverseAndBuild(H, height - 1, pos * 2 + 1, vTxid, vMatch);
        }
      }
    }

    /** Reads stored bits and hashes; nBitsUsed, nHashUsed and vMatch go in and out. */
    method TraverseAndExtract(H: PairHash, height: nat, pos: nat, nBitsUsed: nat, nHashUsed: nat, vMatch: seq<uint256>)
      returns (hash: uint256, nBitsUsedOut: nat, nHashUsedOut: nat, vMatchOut: seq<uint256>)
      modifies this`fBad
      ensures Extends(vMatch, old(fBad), Decode(H, nTransactions, vBits, vHash, height, pos, nBitsUsed, nHashUsed),
                      hash, nBitsUsedOut, nHashUsedOut, vMatchOut, fBad)
      decreases height, 1
    {
      hash, nBitsUsedOut, nHashUsedOut, vMatchOut := 0, nBitsUsed, nHashUsed, vMatch;
      if nBitsUsedOut >= |vBits| {
        fBad := true;
      } else {
        var fParentOfMatch := vBits[nBitsUsedOut];
        nBitsUsedOut := nBitsUsedOut + 1;
        if height == 0 || !fParentOfMatch {
          if nHashUsedOut >= |vHash| {
            fBad := true;
          } else {
            hash := vHash[nHashUsedOut];
            nHashUsedOut := nHashUsedOut + 1;
            if height == 0 && fParentOfMatch {
              vMatchOut := vMatchOut + [hash];
            }
          }
        } else {
          hash, nBitsUsedOut, nHashUsedOut, vMatchOut := ExtractChildren(H, height - 1, pos, nBitsUsedOut, nHashUsedOut, vMatchOut);
        }
      }
    }

    /** The descent into the subtrees. */
    method ExtractChildren(H: PairHash, height: nat, pos: nat, nBitsUsed: nat, nHashUsed: nat, vMatch: seq<uint256>)
      returns (hash: uint256, nBitsUsedOut: nat, nHashUsedOut: nat, vMatchOut: seq<uint256>)
      requires 1 <= nBitsUsed <= |vBits| && vBits[nBitsUsed - 1]
      modifies this`fBad
      ensures Extends(vMatch, old(fBad), Decode(H, nTransactions, vBits, vHash, height + 1, pos, nBitsUsed - 1, nHashUsed),
                      hash, nBitsUsedOut, nHashUsedOut, vMatchOut, fBad)
      decreases height + 1, 0
    {
      hide Decode, TreeWidth, CalcTreeWidth, Pair;
      DecodeUnfolds(H, nTransactions, vBits, vHash, height, pos, nBitsUsed - 1, nHashUsed);
      WidthFormula(nTransactions, height);
      var left, right;
      left, nBitsUsedOut, nHashUsedOut, vMatchOut := TraverseAndExtract(H, height, pos * 2, nBitsUsed, nHashUsed, vMatch);
      if pos * 2 + 1 < CalcTreeWidth(nTransactions, height) {
        right, nBitsUsedOut, nHashUsedOut, vMatchOut := TraverseAndExtract(H, height, pos * 2 + 1, nBitsUsedOut, nHashUsedOut, vMatchOut);
      } else {
        right := left;
      }
      hash := Pair(H, left, right);
    }

    constructor (H: PairHash, vTxid: seq<uint256>, vMatch: seq<bool>)
      requires 1 <= |vTxid| == |vMatch|
      ensures nTransactions == |vTxid| && !fBad
      ensures exists height: nat :: IsHeight(|vTxid|, height)
                && vBits == Encode(H, vTxid, vMatch, height, 0).bits && vHash == Encode(H, vTxid, vMatch, height, 0).hashes
    {
      nTransactions, fBad, vBits, vHash := |vTxid|, false, [], [];
      new;
      var nHeight := CalcHeight();
      RootLeaves(|vTxid|, nHeight);
      hide TreeWidth, Encode, FirstLeaf;
      TraverseAndBuild(H, nHeight, 0, vTxid, vMatch);
    }

    method CalcHeight() returns (nHeight: nat)
      ensures IsHeight(nTransactions, nHeight)
    {
      nHeight := 0;
      WidthFormula(nTransactions, 0);
      while CalcTreeWidth(nTransactions, nHeight) > 1
        invariant CalcTreeWidth(nTransactions, nHeight) == TreeWidth(nTransactions, nHeight)
        invariant forall h: nat | h < nHeight :: TreeWidth(nTransactions, h) > 1
        decreases TreeWidth(nTransactions, nHeight)
      {
        WidthStep(nTransactions, nHeight);
        WidthFormula(nTransactions, nHeight + 1);
        hide TreeWidth, CalcTreeWidth;
        nHeight := nHeight + 1;
      }
    }

    /** The root and the matched ids, or 0 when anything is wrong. */
    method ExtractMatches(H: PairHash) returns (root: uint256, vMatch: seq<uint256>, ghost height: nat)
      modifies this`fBad
      ensures IsHeight(nTransactions, height)
      ensures
        var w := Decode(H, nTransactions, vBits, vHash, height, 0, 0, 0);
        if !old(fBad) && Accepts(H, nTransactions, vBits, vHash, height) then root == w.hash && vMatch == w.vMatch else root == 0
    {
      vMatch := [];
      var nHeight := CalcHeight();
      height := nHeight;
      hide IsHeight, Decode;
      if nTransactions == 0 {
        return 0, vMatch, height;
      }
      if nTransactions > MAX_BLOCK_SIZE / 60 {
        return 0, vMatch, height;
      }
      if |vHash| > nTransactions {
        return 0, vMatch, height;
      }
      if |vBits| < |vHash| {
        return 0, vMatch, height;
      }
      var hashMerkleRoot, nBitsUsed, nHashUsed;
      hashMerkleRoot, nBitsUsed, nHashUsed, vMatch := TraverseAndExtract(H, nHeight, 0, 0, 0, vMatch);
      if fBad {
        return 0, vMatch, height;
      }
      if (nBitsUsed + 7) / 8 != (|vBits| + 7) / 8 {
        return 0, vMatch, height;
      }
      if nHashUsed != |vHash| {
        return 0, vMatch, height;
      }
      return hashMerkleRoot, vMatch, height;
    }

    /** Serialized: the counts, the hashes and the bits packed into bytes. */
    method Serialize() returns (n: nat, hashes: seq<uint256>, vBytes: seq<Byte>)
      ensures n == nTransactions && hashes == vHash && PackedAs(vBits, vBytes)
    {
      n, hashes := nTransactions, vHash;
      vBytes := PackBits(vBits);
    }

    method Unserialize(n: nat, hashes: seq<uint256>, vBytes: seq<Byte>)
      modifies this
      ensures nTransactions == n && vHash == hashes && vBits == Unpack(vBytes) && !fBad
    {
      nTransactions, vHash, fBad := n, hashes, false;
      vBits := Unpack(vBytes);
    }
  }

  /** Appending piece by piece. */
  lemma BuiltSoFar<T>(before: seq<T>, head: seq<T>, a: seq<T>, b: seq<T>)
    ensures before + head + a + b == before + (head + a + b) && before + [] == before && [] + a == a && a + [] == a
  {
  }

  lemma MatchNext(vMatch: seq<bool>, lo: nat, p: nat)
    requires lo <= p < |vMatch|
    ensures MatchIn(vMatch, lo, p + 1) <==> MatchIn(vMatch, lo, p) || vMatch[p]
  {
    if MatchIn(vMatch, lo, p) {
      var q :| lo <= q < p && q < |vMatch| && vMatch[q];
      assert lo <= q < p + 1;
    }
  }

  lemma NoSecondPart(H: PairHash, vTxid: seq<uint256>, vMatch: seq<bool>, height: nat, pos: nat)
    ensures pos >= TreeWidth(|vTxid|, height) ==> Encode(H, vTxid, vMatch, height, pos) == Part([], [])
  {
  }

  /** From a block's ids and a selection, through the bytes of a message, back to the root
      and the selected ids. */
  method ProveAndExtract(H: PairHash, vTxid: seq<uint256>, vMatch: seq<bool>) returns (root: uint256, ids: seq<uint256>, nHashes: nat, ghost height: nat)
    requires 1 <= |vTxid| == |vMatch| <= MAX_BLOCK_SIZE / 60
    ensures IsHeight(|vTxid|, height) && root == Root(H, vTxid, height)
    ensures ids == Matched(vTxid, vMatch, 0, |vTxid|)
    ensures nHashes <= |vTxid| && nHashes <= 1 + |ids| * height
  {
    var sent := new CPartialMerkleTree(H, vTxid, vMatch);
    hide IsHeight, Encode, Decode, PackedAs, Accepts, Matched, Root;
    ghost var h: nat :| IsHeight(|vTxid|, h) && sent.vBits == Encode(H, vTxid, vMatch, h, 0).bits && sent.vHash == Encode(H, vTxid, vMatch, h, 0).hashes;
    var n, hashes, vBytes := sent.Serialize();
    var received := new CPartialMerkleTree(H, vTxid, vMatch);
    received.Unserialize(n, hashes, vBytes);
    PaddingIsIgnored(H, vTxid, vMatch, h, vBytes);
    nHashes := |hashes|;
    root, ids, height := received.ExtractMatches(H);
    HeightIsUnique(|vTxid|, h, height);
  }

  lemma PaddingIsIgnored(H: PairHash, vTxid: seq<uint256>, vMatch: seq<bool>, height: nat, vBytes: seq<Byte>)
    requires 1 <= |vTxid| == |vMatch| <= MAX_BLOCK_SIZE / 60 && IsHeight(|vTxid|, height)
    requires PackedAs(Encode(H, vTxid, vMatch, height, 0).bits, vBytes)
    ensures
      var vHash := Encode(H, vTxid, vMatch, height, 0).hashes;
      var w := Decode(H, |vTxid|, Unpack(vBytes), vHash, height, 0, 0, 0);
      && Accepts(H, |vTxid|, Unpack(vBytes), vHash, height)
      && w.hash == Root(H, vTxid, height) && w.vMatch == Matched(vTxid, vMatch, 0, |vTxid|)
      && |vHash| <= |vTxid| && |vHash| <= 1 + |w.vMatch| * height
  {
    hide Encode, Decode, Matched, Root, IsHeight;
    EncodedIsAccepted(H, vTxid, vMatch, height, Unpack(vBytes));
  }

  /** A tree for the block's true count that yields the block's root, which is not 0, yields
      only a subsequence of its ids. */
  method ExtractSoundly(H: PairHash, ghost vTxid: seq<uint256>, tree: CPartialMerkleTree) returns (root: uint256, ids: seq<uint256>, ghost height: nat)
    requires Injective(H) && vTxid != [] && tree.nTransactions == |vTxid|
    modifies tree`fBad
    ensures IsHeight(|vTxid|, height)
    ensures root != 0 && root == Root(H, vTxid, height) ==> Subsequence(vTxid, ids, 0, |vTxid|)
  {
    hide IsHeight, Decode, Accepts, Root, Injective, Subsequence;
    root, ids, height := tree.ExtractMatches(H);
    if root != 0 && root == Root(H, vTxid, height) {
      AcceptedIsSubsequence(H, vTxid, height, tree.vBits, tree.vHash);
    }
  }
}
