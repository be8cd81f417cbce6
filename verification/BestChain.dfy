/** Choosing the tip and looking blocks up by height (main.cpp, ConnectBestBlock and
    FindBlockByHeight; main.h, CBlockIndexWorkComparator). */
module BestChain {
  import opened BlockTree
  import opened Chain
  import opened ChainState
  import Target

  /** The order of setBlockIndexValid: more work wins, then the smaller hash. */
  predicate WorkLess(a: CBlockIndex, b: CBlockIndex) {
    a.nChainWork < b.nChainWork || (a.nChainWork == b.nChainWork && a.hash > b.hash)
  }

  method LastByWork(s: set<CBlockIndex>) returns (best: CBlockIndex)
    requires s != {}
    ensures best in s && forall b | b in s :: !WorkLess(best, b)
  {
    best :| best in s;
    var left := s - {best};
    while left != {}
      invariant left <= s && best in s
      invariant forall b | b in s && b !in left :: !WorkLess(best, b)
      decreases left
    {
      var b :| b in left;
      if WorkLess(best, b) {
        forall x | x in s && x !in left ensures !WorkLess(b, x) {
          assert !WorkLess(best, x);
        }
        best := b;
      }
      left := left - {b};
    }
  }

  /** Every block adds work to its parent's. */
  ghost predicate WorkGrows(index: set<CBlockIndex>) {
    forall b | b in index && b.pprev != null :: b.pprev.nChainWork < b.nChainWork
  }

  /** With GetBlockWork's amounts they do. */
  lemma BlockWorkGrows(index: set<CBlockIndex>, nTargetMinLength: nat)
    requires forall b | b in index :: nTargetMinLength <= Target.TargetGetLength(b.nBits)
    requires forall b | b in index && b.pprev != null ::
               b.nChainWork == b.pprev.nChainWork + Target.GetBlockWork(b.nBits, nTargetMinLength)
    ensures WorkGrows(index)
  {
    forall b | b in index && b.pprev != null ensures b.pprev.nChainWork < b.nChainWork {
      Target.BlockWorkAtLeast256(b.nBits, nTargetMinLength);
    }
  }

  ghost predicate CleanBranch(index: set<CBlockIndex>, tip: CBlockIndex?)
    reads index`fFailed
  {
    tip != null ==> forall a | a in index && tip.Descends(a) :: !a.fFailed
  }

  /** The candidates, as AddToBlockIndex and InvalidBlockFound keep them. */
  ghost predicate NoneFailed(s: set<CBlockIndex>)
    reads s`fFailed
  {
    forall b | b in s :: !b.fFailed
  }

  lemma NextOnBranch(index: set<CBlockIndex>, g: nat, best: CBlockIndex, b: CBlockIndex)
    requires Tree(index, g) && best in index && NextFollows(index, best, best.nHeight)
    requires best.Descends(b) && b.nHeight < best.nHeight
    ensures b in index && b.pnext == best.Ancestor(b.nHeight + 1)
  {
    AncestorInTree(index, g, best, b.nHeight);
  }

  /** Walks along the active chain from one of its blocks to a height. */
  method WalkTo(ghost index: set<CBlockIndex>, ghost g: nat, ghost best: CBlockIndex, start: CBlockIndex, nHeight: nat)
    returns (pblockindex: CBlockIndex)
    requires Tree(index, g) && best in index && NextFollows(index, best, best.nHeight)
    requires best.Descends(start) && nHeight <= best.nHeight
    ensures best.Linked() && pblockindex == best.Ancestor(nHeight)
  {
    hide NextFollows, Tree, CBlockIndex.Linked, CBlockIndex.Ancestor;
    pblockindex := start;
    while pblockindex.nHeight > nHeight
      invariant best.Descends(pblockindex)
      decreases pblockindex.nHeight
    {
      ParentOfAncestor(best, pblockindex.nHeight);
      pblockindex := pblockindex.pprev;
    }
    while pblockindex.nHeight < nHeight
      invariant best.Descends(pblockindex) && pblockindex.nHeight <= nHeight
      decreases nHeight - pblockindex.nHeight
    {
      NextOnBranch(index, g, best, pblockindex);
      pblockindex := pblockindex.pnext;
    }
  }

  /** The block of the active chain at a height, whatever the memo holds. */
  method FindBlockByHeight(cs: CChainState, pindexGenesisBlock: CBlockIndex, nHeight: nat) returns (pblockindex: CBlockIndex)
    requires cs.TreeOk() && cs.LinksOk() && cs.pindexBest != null && nHeight <= cs.pindexBest.nHeight
    requires pindexGenesisBlock == cs.pindexBest.Ancestor(0)
    modifies cs`pblockindexFBBHLast
    ensures pblockindex == cs.pindexBest.Ancestor(nHeight)
    ensures cs.pblockindexFBBHLast == pblockindex && cs.LinksOk()
  {
    assert cs.pindexBest.Linked();
    hide NextFollows, Tree;
    pblockindex := if nHeight < cs.pindexBest.nHeight / 2 then pindexGenesisBlock else cs.pindexBest;
    if cs.pblockindexFBBHLast != null && Distance(nHeight, pblockindex.nHeight) > Distance(nHeight, cs.pblockindexFBBHLast.nHeight) {
      pblockindex := cs.pblockindexFBBHLast;
    }
    AncestorSelf(cs.pindexBest);
    pblockindex := WalkTo(cs.mapBlockIndex, cs.hashGenesisBlock, cs.pindexBest, pblockindex, nHeight);
    cs.pblockindexFBBHLast := pblockindex;
  }

  function Distance(a: int, b: int): nat {
    if a < b then b - a else a - b
  }

  // ---------- ConnectBestBlock ----------

  ghost predicate AllExemptSafely(index: set<CBlockIndex>) {
    forall b | b in index :: ExemptSafely(b)
  }

  /** The blocks of a branch above a height. */
  ghost predicate Above(tip: CBlockIndex, h: int, b: CBlockIndex) {
    tip.Descends(b) && b.nHeight > h
  }

  /** Above a height a branch is not failed and not below the active tip. */
  ghost predicate FreeAbove(index: set<CBlockIndex>, tip: CBlockIndex, h: int)
    reads index`fFailed, index`pnext
  {
    forall a | a in index && Above(tip, h, a) :: !a.fFailed && a.pnext == null && a.pprev != null
  }

  lemma StepDown(index: set<CBlockIndex>, g: nat, tip: CBlockIndex, b: CBlockIndex)
    requires Tree(index, g) && WorkGrows(index) && b in index && tip.Descends(b) && b.pprev != null
    requires FreeAbove(index, tip, b.nHeight) && !b.fFailed && b.pnext == null
    ensures b.pprev in index && tip.Descends(b.pprev) && b.pprev.nHeight == b.nHeight - 1
    ensures b.pprev.nChainWork < b.nChainWork
    ensures FreeAbove(index, tip, b.pprev.nHeight)
  {
    ParentOfAncestor(tip, b.nHeight);
    hide CBlockIndex.Ancestor;
  }

  lemma StepStart(index: set<CBlockIndex>, tip: CBlockIndex)
    requires tip.Linked()
    ensures tip.Descends(tip) && FreeAbove(index, tip, tip.nHeight)
  {
  }

  /** The walk down the branch of b gets to height h: above it is no root, and no block of
      the active chain below its tip. */
  ghost predicate WalkReaches(index: set<CBlockIndex>, b: CBlockIndex, h: int)
    reads index`pnext
  {
    forall m | m in index && Above(b, h, m) :: m.pnext == null && m.pprev != null
  }

  /** The walk down from b meets none of these blocks. */
  ghost predicate ClearOf(index: set<CBlockIndex>, failed: set<CBlockIndex>, b: CBlockIndex)
    reads index`pnext
  {
    forall a | a in failed && b.Descends(a) :: !WalkReaches(index, b, a.nHeight)
  }

  ghost function FailedIn(index: set<CBlockIndex>): set<CBlockIndex>
    reads index`fFailed
  {
    set b | b in index && b.fFailed
  }

  /** The walk down from b meets no failed block. */
  ghost predicate Attachable(index: set<CBlockIndex>, b: CBlockIndex)
    reads index`pnext, index`fFailed
  {
    ClearOf(index, FailedIn(index), b)
  }

  ghost predicate MoreWork(b: CBlockIndex, tip: CBlockIndex?) {
    tip == null || b.nChainWork > tip.nChainWork
  }

  /** The candidates the tip can move to. */
  ghost function Movable(cs: CChainState): set<CBlockIndex>
    reads cs, cs.mapBlockIndex`pnext, cs.mapBlockIndex`fFailed
  {
    set c | c in cs.setBlockIndexValid && Attachable(cs.mapBlockIndex, c) && MoreWork(c, cs.pindexBest)
  }

  /** The last of them, or the old tip when there is none. */
  ghost predicate Picks(movable: set<CBlockIndex>, tip: CBlockIndex?, b: CBlockIndex?) {
    if movable == {} then b == tip
    else b != null && b in movable && forall c | c in movable :: !WorkLess(b, c)
  }

  ghost predicate MovesTo(cs: CChainState, b: CBlockIndex?)
    reads cs, cs.mapBlockIndex`pnext, cs.mapBlockIndex`fFailed
  {
    Picks(Movable(cs), cs.pindexBest, b)
  }

  ghost predicate DistinctHashes(s: set<CBlockIndex>) {
    forall a, b | a in s && b in s && a.hash == b.hash :: a == b
  }

  /** The branch of b shares no failed block with that of the tip. */
  ghost predicate SharesNoFailed(cs: CChainState, b: CBlockIndex?)
    reads cs, cs.mapBlockIndex`fFailed
  {
    b != null && cs.pindexBest != null ==>
      forall a | a in cs.mapBlockIndex && b.Descends(a) && cs.pindexBest.Descends(a) :: !a.fFailed
  }

  /** Where the tip goes there is nothing failed below what it shares with the old chain. */
  ghost predicate EndsClean(cs: CChainState)
    reads cs, cs.mapBlockIndex`pnext, cs.mapBlockIndex`fFailed
  {
    forall b | b in cs.mapBlockIndex && MovesTo(cs, b) :: SharesNoFailed(cs, b)
  }

  datatype Outcome = FoundFailed | Reached

  /** Walks down from a candidate until a failed block, or a block of the active chain below
      its tip (or a root) is met. */
  method CheckAncestry(cs: CChainState, pindexNewBest: CBlockIndex)
    returns (outcome: Outcome, pindexTest: CBlockIndex, vAttach: seq<CBlockIndex>)
    requires cs.TreeOk() && WorkGrows(cs.mapBlockIndex) && pindexNewBest in cs.mapBlockIndex
    ensures pindexNewBest.Descends(pindexTest) && FreeAbove(cs.mapBlockIndex, pindexNewBest, pindexTest.nHeight)
    ensures pindexTest in cs.mapBlockIndex && (pindexTest.fFailed <==> outcome == FoundFailed)
    ensures outcome == Reached ==> pindexTest.pprev == null || pindexTest.pnext != null
    ensures forall b | b in vAttach :: b in cs.mapBlockIndex
    ensures outcome == Reached ==>
              if cs.pindexBest == null || pindexNewBest.nChainWork > cs.pindexBest.nChainWork
              then vAttach != [] && vAttach[|vAttach| - 1] == pindexNewBest else vAttach == []
  {
    StepStart(cs.mapBlockIndex, pindexNewBest);
    hide Tree, WorkGrows, FreeAbove, CBlockIndex.Descends;
    pindexTest := pindexNewBest;
    var collected := [];
    while true
      invariant pindexNewBest.Descends(pindexTest) && pindexTest in cs.mapBlockIndex
      invariant pindexTest.nChainWork <= pindexNewBest.nChainWork
      invariant FreeAbove(cs.mapBlockIndex, pindexNewBest, pindexTest.nHeight)
      invariant forall b | b in collected :: b in cs.mapBlockIndex
      invariant if pindexTest != pindexNewBest && (cs.pindexBest == null || pindexNewBest.nChainWork > cs.pindexBest.nChainWork)
                then collected != [] && collected[0] == pindexNewBest else collected == []
      decreases pindexTest.nHeight
    {
      if pindexTest.fFailed {
        return FoundFailed, pindexTest, [];
      }
      if cs.pindexBest == null || pindexTest.nChainWork > cs.pindexBest.nChainWork {
        collected := collected + [pindexTest];
      }
      if pindexTest.pprev == null || pindexTest.pnext != null {
        vAttach := seq(|collected|, i requires 0 <= i < |collected| => collected[|collected| - 1 - i]);
        return Reached, pindexTest, vAttach;
      }
      StepDown(cs.mapBlockIndex, cs.hashGenesisBlock, pindexNewBest, pindexTest);
      pindexTest := pindexTest.pprev;
    }
  }

  /** A branch checked down to where the walk ends is attachable unless a failed block ended it. */
  lemma CheckedMeans(index: set<CBlockIndex>, newBest: CBlockIndex, stop: CBlockIndex)
    requires stop in index && newBest.Descends(stop) && FreeAbove(index, newBest, stop.nHeight)
    requires stop.fFailed || stop.pprev == null || stop.pnext != null
    ensures Attachable(index, newBest) <==> !stop.fFailed
  {
    assert WalkReaches(index, newBest, stop.nHeight);
  }

  /** A walk that reaches a block above a failed one on a free branch goes on to that one. */
  lemma WalkGoesOn(index: set<CBlockIndex>, newBest: CBlockIndex, test: CBlockIndex, c: CBlockIndex, a: CBlockIndex)
    requires newBest.Descends(test) && WalkReaches(index, newBest, test.nHeight)
    requires Above(newBest, test.nHeight, a) && c.Descends(a) && WalkReaches(index, c, a.nHeight)
    ensures c.Descends(test) && WalkReaches(index, c, test.nHeight)
  {
    SharedBelow(newBest, c, a, test.nHeight);
    hide CBlockIndex.Linked, CBlockIndex.Ancestor;
    forall m | m in index && Above(c, test.nHeight, m) ensures m.pnext == null && m.pprev != null {
      if m.nHeight <= a.nHeight {
        SharedBelow(newBest, c, a, m.nHeight);
        assert Above(newBest, test.nHeight, m);
      } else {
        assert Above(c, a.nHeight, m);
      }
    }
  }

  /** From a common block down two branches are the same. */
  lemma SharedBelow(b: CBlockIndex, c: CBlockIndex, a: CBlockIndex, h: nat)
    requires b.Descends(a) && c.Descends(a) && h <= a.nHeight
    ensures b.Ancestor(h) == c.Ancestor(h)
  {
    AncestorOfAncestor(b, a.nHeight, h);
    AncestorOfAncestor(c, a.nHeight, h);
  }

  lemma LevelDown(index: set<CBlockIndex>, g: nat, tip: CBlockIndex, b: CBlockIndex, low: CBlockIndex)
    requires Tree(index, g) && b in index && tip.Descends(b) && tip.Descends(low)
    requires low.nHeight <= b.nHeight && b != low
    ensures b.pprev != null && b.pprev in index && tip.Descends(b.pprev)
    ensures low.nHeight <= b.pprev.nHeight < b.nHeight
    ensures forall a | a in index :: Above(tip, b.pprev.nHeight, a) <==> Above(tip, b.nHeight, a) || a == b
  {
    ParentOfAncestor(tip, b.nHeight);
    hide CBlockIndex.Ancestor;
  }

  /** Marks everything on the branch above a failed block, newest first. */
  method MarkDescendantsFailed(cs: CChainState, pindexNewBest: CBlockIndex, pindexTest: CBlockIndex)
    requires cs.TreeOk() && pindexNewBest in cs.mapBlockIndex && pindexNewBest.Descends(pindexTest)
    modifies cs`setBlockIndexValid, cs.mapBlockIndex`fFailed
    ensures forall b | b in cs.mapBlockIndex :: b.fFailed <==> old(b.fFailed) || Above(pindexNewBest, pindexTest.nHeight, b)
    ensures cs.setBlockIndexValid == set b | b in old(cs.setBlockIndexValid) && !Above(pindexNewBest, pindexTest.nHeight, b)
  {
    var pindexFailed: CBlockIndex := pindexNewBest;
    AncestorSelf(pindexNewBest);
    assert forall b :: !Above(pindexNewBest, pindexNewBest.nHeight, b);
    hide Tree, CBlockIndex.Descends, Above;
    while pindexTest != pindexFailed
      invariant pindexNewBest.Descends(pindexFailed) && pindexFailed in cs.mapBlockIndex && pindexFailed.nHeight >= pindexTest.nHeight
      invariant forall b | b in cs.mapBlockIndex :: b.fFailed <==> old(b.fFailed) || Above(pindexNewBest, pindexFailed.nHeight, b)
      invariant cs.setBlockIndexValid == set b | b in old(cs.setBlockIndexValid) && !Above(pindexNewBest, pindexFailed.nHeight, b)
      decreases pindexFailed.nHeight
    {
      LevelDown(cs.mapBlockIndex, cs.hashGenesisBlock, pindexNewBest, pindexFailed, pindexTest);
      pindexFailed.fFailed := true;
      cs.setBlockIndexValid := cs.setBlockIndexValid - {pindexFailed};
      pindexFailed := pindexFailed.pprev;
    }
  }

  /** Switches to each block in turn. */
  method AttachAll(cs: CChainState, vAttach: seq<CBlockIndex>) returns (ok: bool)
    requires cs.Valid() && AllExemptSafely(cs.mapBlockIndex) && forall b | b in vAttach :: b in cs.mapBlockIndex
    modifies cs`setBlockIndexValid, cs`pindexBest, cs`pblockindexFBBHLast, cs.pcoinsTip.repr, cs.mapBlockIndex
    ensures cs.TreeOk()
    ensures ok ==> cs.Valid() && cs.pindexBest == if vAttach == [] then old(cs.pindexBest) else vAttach[|vAttach| - 1]
    ensures ok ==> cs.setBlockIndexValid == old(cs.setBlockIndexValid)
    ensures ok ==> forall b | b in cs.mapBlockIndex :: b.fFailed == old(b.fFailed)
    ensures vAttach == [] ==> ok
  {
    hide Tree, CBlockIndex.Descends, NextFollows;
    ok := true;
    for i := 0 to |vAttach|
      invariant cs.Valid() && cs.pindexBest == if i == 0 then old(cs.pindexBest) else vAttach[i - 1]
      invariant cs.setBlockIndexValid == old(cs.setBlockIndexValid)
      invariant forall b | b in cs.mapBlockIndex :: b.fFailed == old(b.fFailed)
    {
      ghost var fFlushed;
      ok, fFlushed := cs.SetBestChain(vAttach[i]);
      if !ok {
        return;
      }
    }
    ok := true;
  }

  /** Blocks marked during a call hang, off the active chain, under a failed parent. */
  ghost predicate MarkedUnderFailed(index: set<CBlockIndex>, wasFailed: set<CBlockIndex>)
    reads index`fFailed, index`pnext
  {
    && (forall b | b in index && b in wasFailed :: b.fFailed)
    && (forall b | b in index && b.fFailed && b !in wasFailed ::
          b.pnext == null && b.pprev != null && (b.pprev in index ==> b.pprev.fFailed))
  }

  /** What the new branch shares with the old one held no failed block. */
  ghost predicate SharedClean(index: set<CBlockIndex>, newTip: CBlockIndex?, oldTip: CBlockIndex?, wasFailed: set<CBlockIndex>) {
    newTip != null && oldTip != null ==>
      forall a | a in index && newTip.Descends(a) && oldTip.Descends(a) :: a !in wasFailed
  }

  /** The active tip can only have been marked because a block below it had failed before. */
  lemma SameTipClean(index: set<CBlockIndex>, g: nat, tip: CBlockIndex?, wasFailed: set<CBlockIndex>)
    requires Tree(index, g) && (tip != null ==> tip in index && NextFollows(index, tip, tip.nHeight))
    requires MarkedUnderFailed(index, wasFailed)
    ensures CleanBranch(index, tip) <==> SharedClean(index, tip, tip, wasFailed)
    ensures tip != null && SharedClean(index, tip, tip, wasFailed) ==> !tip.fFailed
  {
    if tip != null && SharedClean(index, tip, tip, wasFailed) {
      AncestorSelf(tip);
      forall a | a in index && tip.Descends(a) ensures !a.fFailed {
        if a.fFailed {
          MarkedIsTip(index, g, tip, wasFailed, a);
        }
      }
    }
  }

  lemma MarkedIsTip(index: set<CBlockIndex>, g: nat, tip: CBlockIndex, wasFailed: set<CBlockIndex>, a: CBlockIndex)
    requires Tree(index, g) && tip in index && NextFollows(index, tip, tip.nHeight)
    requires MarkedUnderFailed(index, wasFailed)
    requires a in index && tip.Descends(a) && a.fFailed && a !in wasFailed
    ensures !SharedClean(index, tip, tip, wasFailed)
  {
    AncestorSelf(tip);
    if a.nHeight < tip.nHeight {
      NextOnBranch(index, g, tip, a);
    } else {
      ParentOfAncestor(tip, tip.nHeight);
      NextOnBranch(index, g, tip, a.pprev);
      assert tip.Descends(a.pprev) && a.pprev in wasFailed;
    }
  }

  /** A checked candidate's branch has no failures but those below where it joins the
      active chain. */
  lemma CheckedBranch(index: set<CBlockIndex>, g: nat, tip: CBlockIndex?, wasFailed: set<CBlockIndex>,
                      newBest: CBlockIndex, stop: CBlockIndex, a: CBlockIndex)
    requires Tree(index, g) && (tip != null ==> tip in index) && NextFollows(index, tip, HeightOr(tip, -1))
    requires MarkedUnderFailed(index, wasFailed)
    requires newBest in index && newBest.Descends(stop) && FreeAbove(index, newBest, stop.nHeight)
    requires stop in index && !stop.fFailed && (stop.pprev == null || stop.pnext != null)
    requires a in index && newBest.Descends(a) && a.fFailed
    ensures tip != null && tip.Descends(a) && a in wasFailed
  {
    assert a.nHeight <= stop.nHeight;
    if a.nHeight < stop.nHeight {
      RootIsAtZero(stop);
      assert tip != null && tip.Descends(stop);
      AncestorOfAncestor(newBest, stop.nHeight, a.nHeight);
      AncestorOfAncestor(tip, stop.nHeight, a.nHeight);
      NextOnBranch(index, g, tip, a);
    }
  }

  lemma CheckedIsClean(index: set<CBlockIndex>, g: nat, tip: CBlockIndex?, wasFailed: set<CBlockIndex>,
                       newBest: CBlockIndex, stop: CBlockIndex)
    requires Tree(index, g) && (tip != null ==> tip in index) && NextFollows(index, tip, HeightOr(tip, -1))
    requires MarkedUnderFailed(index, wasFailed)
    requires newBest in index && newBest.Descends(stop) && FreeAbove(index, newBest, stop.nHeight)
    requires stop in index && !stop.fFailed && (stop.pprev == null || stop.pnext != null)
    ensures CleanBranch(index, newBest) <==> SharedClean(index, newBest, tip, wasFailed)
  {
    hide Tree, NextFollows, FreeAbove, CBlockIndex.Descends;
    forall a | a in index && newBest.Descends(a) && a.fFailed
      ensures tip != null && tip.Descends(a) && a in wasFailed
    {
      CheckedBranch(index, g, tip, wasFailed, newBest, stop, a);
    }
  }

  lemma ParentAbove(tip: CBlockIndex, low: CBlockIndex, b: CBlockIndex)
    requires tip.Descends(low) && Above(tip, low.nHeight, b)
    ensures b.pprev != null && (b.pprev == low || Above(tip, low.nHeight, b.pprev))
  {
    ParentOfAncestor(tip, b.nHeight);
    hide CBlockIndex.Ancestor;
  }

  /** Marking what is above a failed block on a free branch changes no walk's result, and what
      it marks was not attachable. */
  lemma MarkingKeeps(index: set<CBlockIndex>, newBest: CBlockIndex, test: CBlockIndex, before: set<CBlockIndex>, after: set<CBlockIndex>,
                     c: CBlockIndex)
    requires newBest.Descends(test) && test in before && WalkReaches(index, newBest, test.nHeight)
    requires forall b | b in index :: b in after <==> b in before || Above(newBest, test.nHeight, b)
    requires before <= index && after <= index && c in index && c.Linked()
    ensures ClearOf(index, after, c) <==> ClearOf(index, before, c)
    ensures Above(newBest, test.nHeight, c) ==> !ClearOf(index, before, c)
  {
    hide CBlockIndex.Descends, Above, WalkReaches;
    forall a | Above(newBest, test.nHeight, a) && c.Descends(a) && WalkReaches(index, c, a.nHeight)
      ensures !ClearOf(index, before, c)
    {
      WalkGoesOn(index, newBest, test, c, a);
    }
    if Above(newBest, test.nHeight, c) {
      NothingAbove(index, c);
    }
  }

  lemma NothingAbove(index: set<CBlockIndex>, c: CBlockIndex)
    requires c.Linked()
    ensures c.Descends(c) && WalkReaches(index, c, c.nHeight)
  {
  }

  /** So marking takes no block from those the tip can move to. */
  lemma MarkingKeepsMovable(cs: CChainState, newBest: CBlockIndex, test: CBlockIndex, before: set<CBlockIndex>, candidates: set<CBlockIndex>)
    requires cs.TreeOk() && candidates <= cs.mapBlockIndex && before <= cs.mapBlockIndex
    requires newBest.Descends(test) && test in before && WalkReaches(cs.mapBlockIndex, newBest, test.nHeight)
    requires forall b | b in cs.mapBlockIndex :: b.fFailed <==> b in before || Above(newBest, test.nHeight, b)
    requires cs.setBlockIndexValid == set b | b in candidates && !Above(newBest, test.nHeight, b)
    ensures Movable(cs) == set c | c in candidates && ClearOf(cs.mapBlockIndex, before, c) && MoreWork(c, cs.pindexBest)
  {
    hide CBlockIndex.Descends, Above, WalkReaches, ClearOf, MoreWork;
    var after := FailedIn(cs.mapBlockIndex);
    forall c | c in candidates
      ensures ClearOf(cs.mapBlockIndex, after, c) <==> ClearOf(cs.mapBlockIndex, before, c)
      ensures Above(newBest, test.nHeight, c) ==> !ClearOf(cs.mapBlockIndex, before, c)
    {
      MarkingKeeps(cs.mapBlockIndex, newBest, test, before, after, c);
    }
  }

  /** Marks the branch of a candidate that has a failed block below it. */
  method MarkBranch(cs: CChainState, pindexNewBest: CBlockIndex, pindexTest: CBlockIndex, ghost wasFailed: set<CBlockIndex>)
    requires cs.Valid() && pindexNewBest in cs.setBlockIndexValid && cs.setBlockIndexValid <= cs.mapBlockIndex
    requires NoneFailed(cs.setBlockIndexValid) && MarkedUnderFailed(cs.mapBlockIndex, wasFailed)
    requires pindexTest in cs.mapBlockIndex && pindexTest.fFailed
    requires pindexNewBest.Descends(pindexTest) && FreeAbove(cs.mapBlockIndex, pindexNewBest, pindexTest.nHeight)
    modifies cs`setBlockIndexValid, cs.mapBlockIndex`fFailed
    ensures cs.Valid() && NoneFailed(cs.setBlockIndexValid) && MarkedUnderFailed(cs.mapBlockIndex, wasFailed)
    ensures cs.setBlockIndexValid < old(cs.setBlockIndexValid)
    ensures cs.setBlockIndexValid == set b | b in old(cs.setBlockIndexValid) && !Above(pindexNewBest, pindexTest.nHeight, b)
    ensures forall b | b in cs.mapBlockIndex :: b.fFailed <==> old(b.fFailed) || Above(pindexNewBest, pindexTest.nHeight, b)
  {
    assert Above(pindexNewBest, pindexTest.nHeight, pindexNewBest) by { AncestorSelf(pindexNewBest); }
    forall b | b in cs.mapBlockIndex && Above(pindexNewBest, pindexTest.nHeight, b)
      ensures b.pprev != null && b.pnext == null && (b.pprev == pindexTest || Above(pindexNewBest, pindexTest.nHeight, b.pprev))
    {
      ParentAbove(pindexNewBest, pindexTest, b);
    }
    hide FreeAbove, Above, Tree, CBlockIndex.Descends, NextFollows, CChainState.CoinsOk;
    MarkDescendantsFailed(cs, pindexNewBest, pindexTest);
  }

  /** Drops a candidate that has a failed block below it, with all between. */
  method RejectBranch(cs: CChainState, pindexNewBest: CBlockIndex, pindexTest: CBlockIndex, ghost wasFailed: set<CBlockIndex>)
    requires cs.Valid() && pindexNewBest in cs.setBlockIndexValid && cs.setBlockIndexValid <= cs.mapBlockIndex
    requires NoneFailed(cs.setBlockIndexValid) && MarkedUnderFailed(cs.mapBlockIndex, wasFailed)
    requires pindexTest in cs.mapBlockIndex && pindexTest.fFailed
    requires pindexNewBest.Descends(pindexTest) && FreeAbove(cs.mapBlockIndex, pindexNewBest, pindexTest.nHeight)
    modifies cs`setBlockIndexValid, cs.mapBlockIndex`fFailed
    ensures cs.Valid() && NoneFailed(cs.setBlockIndexValid) && MarkedUnderFailed(cs.mapBlockIndex, wasFailed)
    ensures cs.setBlockIndexValid < old(cs.setBlockIndexValid) && Movable(cs) == old(Movable(cs))
    ensures forall b | b in cs.mapBlockIndex && old(b.fFailed) :: b.fFailed
    ensures forall b | b in old(cs.setBlockIndexValid) && b !in cs.setBlockIndexValid :: b.fFailed
  {
    ghost var candidates, before := cs.setBlockIndexValid, FailedIn(cs.mapBlockIndex);
    assert WalkReaches(cs.mapBlockIndex, pindexNewBest, pindexTest.nHeight);
    hide FreeAbove, Above, Tree, CBlockIndex.Descends, CChainState.CoinsOk, CChainState.LinksOk, WalkReaches, ClearOf, MoreWork, MarkedUnderFailed, NoneFailed;
    assert Movable(cs) == set c | c in candidates && ClearOf(cs.mapBlockIndex, before, c) && MoreWork(c, cs.pindexBest);
    MarkBranch(cs, pindexNewBest, pindexTest, wasFailed);
    MarkingKeepsMovable(cs, pindexNewBest, pindexTest, before, candidates);
  }

  /** The last candidate, when the walk from it ends well, is where the tip goes. */
  lemma LastIsPicked(cs: CChainState, best: CBlockIndex)
    requires best in cs.setBlockIndexValid && forall b | b in cs.setBlockIndexValid :: !WorkLess(best, b)
    requires Attachable(cs.mapBlockIndex, best) || !MoreWork(best, cs.pindexBest)
    ensures Picks(Movable(cs), cs.pindexBest, if MoreWork(best, cs.pindexBest) then best else cs.pindexBest)
    ensures MoreWork(best, cs.pindexBest) <==> Movable(cs) != {}
  {
    hide Attachable;
    if MoreWork(best, cs.pindexBest) {
      assert best in Movable(cs);
    } else {
      forall c | c in cs.setBlockIndexValid ensures !MoreWork(c, cs.pindexBest) {
        assert !WorkLess(best, c);
      }
    }
  }

  ghost predicate Searching(cs: CChainState, wasFailed: set<CBlockIndex>)
    reads cs, cs.pcoinsTip.repr, cs.mapBlockIndex
  {
    && cs.Valid() && NoneFailed(cs.setBlockIndexValid) && MarkedUnderFailed(cs.mapBlockIndex, wasFailed)
    && WorkGrows(cs.mapBlockIndex) && AllExemptSafely(cs.mapBlockIndex)
  }

  /** One round: the last candidate is where the tip is or goes, or it is dropped. */
  method TryLast(cs: CChainState, ghost wasFailed: set<CBlockIndex>) returns (done: bool, ok: bool)
    requires Searching(cs, wasFailed)
    modifies cs`setBlockIndexValid, cs`pindexBest, cs`pblockindexFBBHLast, cs.pcoinsTip.repr, cs.mapBlockIndex
    ensures !done ==> Searching(cs, wasFailed) && cs.setBlockIndexValid < old(cs.setBlockIndexValid)
    ensures !done ==> Movable(cs) == old(Movable(cs)) && cs.pindexBest == old(cs.pindexBest)
    ensures !done ==> forall b | b in old(cs.setBlockIndexValid) && b !in cs.setBlockIndexValid :: b.fFailed
    ensures done && ok ==> cs.Valid() && NoneFailed(cs.setBlockIndexValid) && cs.setBlockIndexValid == old(cs.setBlockIndexValid)
    ensures !done || ok ==> forall b | b in cs.mapBlockIndex && old(b.fFailed) :: b.fFailed
    ensures done && ok ==> Picks(old(Movable(cs)), old(cs.pindexBest), cs.pindexBest)
    ensures done && ok ==> (CleanBranch(cs.mapBlockIndex, cs.pindexBest) <==> SharedClean(cs.mapBlockIndex, cs.pindexBest, old(cs.pindexBest), wasFailed))
    ensures done && ok ==> forall b | b in cs.setBlockIndexValid :: cs.pindexBest != null && b.nChainWork <= cs.pindexBest.nChainWork
    ensures done && ok && cs.pindexBest != old(cs.pindexBest) ==> cs.pindexBest in cs.setBlockIndexValid
    ensures done && old(Movable(cs)) == {} ==> ok
  {
    hide Tree, FreeAbove, CBlockIndex.Descends, NextFollows, CChainState.CoinsOk, NoneFailed, WorkGrows, AllExemptSafely, Picks, SharedClean, Movable, Attachable, MarkedUnderFailed;
    done, ok := true, true;
    SameTipClean(cs.mapBlockIndex, cs.hashGenesisBlock, cs.pindexBest, wasFailed);
    if cs.setBlockIndexValid == {} {
      NothingToPick(cs);
      return;
    }
    var pindexNewBest := LastByWork(cs.setBlockIndexValid);
    if pindexNewBest == cs.pindexBest || (cs.pindexBest != null && pindexNewBest.nChainWork == cs.pindexBest.nChainWork) {
      LastIsPicked(cs, pindexNewBest);
      return;
    }
    var outcome, pindexTest, vAttach := CheckAncestry(cs, pindexNewBest);
    CheckedMeans(cs.mapBlockIndex, pindexNewBest, pindexTest);
    if outcome == Reached {
      LastIsPicked(cs, pindexNewBest);
      CheckedIsClean(cs.mapBlockIndex, cs.hashGenesisBlock, cs.pindexBest, wasFailed, pindexNewBest, pindexTest);
      ok := AttachAll(cs, vAttach);
      return;
    }
    done := false;
    RejectBranch(cs, pindexNewBest, pindexTest, wasFailed);
  }

  lemma NothingToPick(cs: CChainState)
    requires cs.setBlockIndexValid == {}
    ensures Picks(Movable(cs), cs.pindexBest, cs.pindexBest)
  {
  }

  /** Moves the tip to the last candidate whose branch the walk finds free of failed blocks, if
      that has more work. The new branch is clean exactly when what it shares with the old
      one was: both can be told before the call. */
  method ConnectBestBlock(cs: CChainState) returns (ok: bool)
    requires cs.Valid() && cs.setBlockIndexValid <= cs.mapBlockIndex
    requires NoneFailed(cs.setBlockIndexValid) && WorkGrows(cs.mapBlockIndex) && AllExemptSafely(cs.mapBlockIndex)
    modifies cs`setBlockIndexValid, cs`pindexBest, cs`pblockindexFBBHLast, cs.pcoinsTip.repr, cs.mapBlockIndex
    ensures ok ==> cs.Valid() && NoneFailed(cs.setBlockIndexValid) && cs.setBlockIndexValid <= old(cs.setBlockIndexValid)
    ensures ok ==> forall b | b in old(cs.setBlockIndexValid) && b !in cs.setBlockIndexValid :: b.fFailed
    ensures ok ==> forall b | b in cs.setBlockIndexValid :: cs.pindexBest != null && b.nChainWork <= cs.pindexBest.nChainWork
    ensures ok ==> var newTip := cs.pindexBest; old(MovesTo(cs, newTip))
    ensures ok ==> var newTip := cs.pindexBest; CleanBranch(cs.mapBlockIndex, newTip) <==> old(SharesNoFailed(cs, newTip))
    ensures ok && old(DistinctHashes(cs.setBlockIndexValid)) ==> (CleanBranch(cs.mapBlockIndex, cs.pindexBest) <==> old(EndsClean(cs)))
    ensures old(Movable(cs)) == {} ==> ok
    ensures ok && (old(cs.pindexBest) != null ==> old(cs.pindexBest in cs.setBlockIndexValid && CleanBranch(cs.mapBlockIndex, cs.pindexBest))) ==>
              && CleanBranch(cs.mapBlockIndex, cs.pindexBest)
              && (if cs.pindexBest == null then cs.setBlockIndexValid == {} else cs.pindexBest in cs.setBlockIndexValid)
  {
    assert cs !in cs.pcoinsTip.repr;
    hide CChainState.Valid, CBlockIndex.Descends, NoneFailed, WorkGrows, AllExemptSafely, Picks, DistinctHashes, CleanBranch;
    ghost var wasFailed, movable, oldTip := FailedIn(cs.mapBlockIndex), Movable(cs), cs.pindexBest;
    assert forall t | t in cs.mapBlockIndex :: SharesNoFailed(cs, t) <==> SharedClean(cs.mapBlockIndex, t, oldTip, wasFailed);
    hide SharesNoFailed, SharedClean, Movable, Searching;
    while true
      invariant Searching(cs, wasFailed) && cs.pindexBest == oldTip && Movable(cs) == movable
      invariant cs.setBlockIndexValid <= old(cs.setBlockIndexValid)
      invariant forall b | b in old(cs.setBlockIndexValid) && b !in cs.setBlockIndexValid :: b.fFailed
      decreases cs.setBlockIndexValid
    {
      var done;
      done, ok := TryLast(cs, wasFailed);
      if done {
        return;
      }
    }
  }
}
