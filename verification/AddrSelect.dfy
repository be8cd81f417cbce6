/** Which tried entry makes room for another (addrman.cpp, SelectTried), given the random draws. */
module AddrSelect {
  import opened AddrTables

  function Inspected(v: seq<nat>): nat {
    if |v| < ADDRMAN_TRIED_ENTRIES_INSPECT_ON_EVICT then |v| else ADDRMAN_TRIED_ENTRIES_INSPECT_ON_EVICT
  }

  /** Draw i is a position from i on. */
  predicate AreDraws(v: seq<nat>, draws: seq<nat>) {
    |draws| <= |v| && forall i | 0 <= i < |draws| :: i <= draws[i] < |v|
  }

  function SwapAt(v: seq<nat>, i: nat, j: nat): (r: seq<nat>)
    requires i < |v| && j < |v|
    ensures |r| == |v|
  {
    v[j := v[i]][i := v[j]]
  }

  /** The bucket after the draws: draw i exchanges its position with position i. */
  function Shuffled(v: seq<nat>, draws: seq<nat>): (r: seq<nat>)
    requires AreDraws(v, draws)
    ensures |r| == |v|
  {
    if draws == [] then v else
      var k := |draws| - 1;
      SwapAt(Shuffled(v, draws[..k]), k, draws[k])
  }

  /** The first of the entries v[0] to v[k - 1] with the least recent success. */
  function OldestOf(a: Infos, v: seq<nat>, k: nat): (i: nat)
    requires 1 <= k <= |v| && forall i | 0 <= i < |v| :: v[i] in a
    ensures i < k
    ensures forall j | 0 <= j < k :: a[v[i]].nLastSuccess <= a[v[j]].nLastSuccess
  {
    if k == 1 then 0 else
      var i := OldestOf(a, v, k - 1);
      if a[v[k - 1]].nLastSuccess < a[v[i]].nLastSuccess then k - 1 else i
  }

  lemma {:induction false} OldestLocal(a: Infos, v: seq<nat>, w: seq<nat>, k: nat)
    requires 1 <= k <= |v| && k <= |w| && v[..k] == w[..k]
    requires (forall i | 0 <= i < |v| :: v[i] in a) && forall i | 0 <= i < |w| :: w[i] in a
    ensures OldestOf(a, v, k) == OldestOf(a, w, k)
  {
    assert forall i | 0 <= i < k :: v[i] == v[..k][i] == w[..k][i] == w[i];
    if k > 1 {
      assert v[..k - 1] == v[..k][..k - 1] && w[..k - 1] == w[..k][..k - 1];
      OldestLocal(a, v, w, k - 1);
    }
  }

  lemma SwapSameMultiset(s: seq<nat>, i: nat, j: nat)
    requires i < |s| && j < |s|
    ensures multiset(SwapAt(s, i, j)) == multiset(s)
  {
  }

  lemma {:induction false} ShuffledIsPermutation(v: seq<nat>, draws: seq<nat>)
    requires AreDraws(v, draws)
    ensures multiset(Shuffled(v, draws)) == multiset(v)
  {
    if draws != [] {
      var k := |draws| - 1;
      ShuffledIsPermutation(v, draws[..k]);
      SwapSameMultiset(Shuffled(v, draws[..k]), k, draws[k]);
    }
  }

  predicate AllDistinct(v: seq<nat>) {
    forall i, j | 0 <= i < j < |v| :: v[i] != v[j]
  }

  lemma SwapKeepsDistinct(v: seq<nat>, i: nat, j: nat)
    requires i < |v| && j < |v| && AllDistinct(v)
    ensures AllDistinct(SwapAt(v, i, j))
  {
  }

  lemma {:induction false} ShuffledIsDistinct(v: seq<nat>, draws: seq<nat>)
    requires AreDraws(v, draws) && AllDistinct(v)
    ensures AllDistinct(Shuffled(v, draws))
  {
    hide AllDistinct;
    if draws != [] {
      var k := |draws| - 1;
      ShuffledIsDistinct(v, draws[..k]);
      SwapKeepsDistinct(Shuffled(v, draws[..k]), k, draws[k]);
    }
  }

  lemma NothingDrawn(v: seq<nat>)
    ensures AreDraws(v, []) && Shuffled(v, []) == v
  {
  }

  /** One more draw: the bucket, and the oldest entry so far. */
  lemma NextDraw(a: Infos, v: seq<nat>, draws: seq<nat>, last: seq<nat>, next: seq<nat>, pos: nat)
    requires AreDraws(v, draws) && last == Shuffled(v, draws) && |draws| <= pos < |v| && next == SwapAt(last, |draws|, pos)
    requires forall i | 0 <= i < |last| :: last[i] in a
    ensures AreDraws(v, draws + [pos]) && next == Shuffled(v, draws + [pos]) && forall i | 0 <= i < |next| :: next[i] in a
    ensures
      var k := |draws|;
      if k == 0 then OldestOf(a, next, 1) == 0
      else var k0 := OldestOf(a, last, k);
           next[k0] == last[k0] && OldestOf(a, next, k + 1) == if a[last[pos]].nLastSuccess < a[last[k0]].nLastSuccess then k else k0
  {
    hide OldestOf, SwapAt, Shuffled;
    DrawAppends(v, draws, pos);
    OldestAfterSwap(a, last, next, |draws|, pos);
  }

  lemma DrawAppends(v: seq<nat>, draws: seq<nat>, pos: nat)
    requires AreDraws(v, draws) && |draws| <= pos < |v|
    ensures AreDraws(v, draws + [pos]) && Shuffled(v, draws + [pos]) == SwapAt(Shuffled(v, draws), |draws|, pos)
  {
    hide SwapAt;
    assert (draws + [pos])[..|draws|] == draws;
  }

  lemma OldestAfterSwap(a: Infos, last: seq<nat>, next: seq<nat>, k: nat, pos: nat)
    requires k <= pos < |last| && next == SwapAt(last, k, pos) && forall i | 0 <= i < |last| :: last[i] in a
    ensures forall i | 0 <= i < |next| :: next[i] in a
    ensures
      if k == 0 then OldestOf(a, next, 1) == 0
      else var k0 := OldestOf(a, last, k);
           next[k0] == last[k0] && OldestOf(a, next, k + 1) == if a[last[pos]].nLastSuccess < a[last[k0]].nLastSuccess then k else k0
  {
    if k > 0 {
      assert next[..k] == last[..k] && next[k] == last[pos];
      OldestLocal(a, last, next, k);
      OldestUnfold(a, next, k);
      hide OldestOf;
    }
  }

  lemma OldestUnfold(a: Infos, v: seq<nat>, k: nat)
    requires 1 <= k < |v| && forall i | 0 <= i < |v| :: v[i] in a
    ensures OldestOf(a, v, k + 1) == if a[v[k]].nLastSuccess < a[v[OldestOf(a, v, k)]].nLastSuccess then k else OldestOf(a, v, k)
  {
  }

  /** The slot that SelectTried returns: the draw that found the oldest entry. */
  function SelectedSlot(a: Infos, v: seq<nat>, draws: seq<nat>): (pos: nat)
    requires draws != [] && AreDraws(v, draws) && forall i | 0 <= i < |v| :: Shuffled(v, draws)[i] in a
    ensures pos < |v|
  {
    draws[OldestOf(a, Shuffled(v, draws), |draws|)]
  }

  /** It holds the oldest inspected entry exactly when that entry was drawn from where it went. */
  lemma SlotHoldsOldestIff(a: Infos, v: seq<nat>, draws: seq<nat>)
    requires draws != [] && AreDraws(v, draws) && AllDistinct(v) && forall i | 0 <= i < |v| :: Shuffled(v, draws)[i] in a
    ensures
      var w, k := Shuffled(v, draws), OldestOf(a, Shuffled(v, draws), |draws|);
      w[SelectedSlot(a, v, draws)] == w[k] <==> draws[k] == k
  {
    ShuffledIsDistinct(v, draws);
    hide Shuffled, OldestOf;
  }

  /** What happens when the second entry is the oldest of the first four: drawn first, it goes to
      the front, and the slot returned holds the entry that it changed places with. */
  lemma NewerIsSelected(a: Infos, v: seq<nat>)
    requires |v| == ADDRMAN_TRIED_BUCKET_SIZE && forall i | 0 <= i < |v| :: v[i] in a
    requires forall i | i == 0 || i == 2 || i == 3 :: a[v[1]].nLastSuccess < a[v[i]].nLastSuccess
    ensures
      var draws := [1, 1, 2, 3];
      && AreDraws(v, draws) && |draws| == Inspected(v) && Shuffled(v, draws) == SwapAt(v, 0, 1)
      && OldestOf(a, Shuffled(v, draws), |draws|) == 0 && SelectedSlot(a, v, draws) == 1
      && Shuffled(v, draws)[1] == v[0] && Shuffled(v, draws)[0] == v[1]
  {
    hide SwapAt, Shuffled, OldestOf, AreDraws;
    FirstPairSwapped(v);
    FrontIsOldest(a, v, SwapAt(v, 0, 1));
  }

  lemma SelfSwap(v: seq<nat>, draws: seq<nat>)
    requires AreDraws(v, draws) && |draws| < |v|
    ensures AreDraws(v, draws + [|draws|]) && Shuffled(v, draws + [|draws|]) == Shuffled(v, draws)
  {
    hide SwapAt, Shuffled, AreDraws;
    DrawAppends(v, draws, |draws|);
    SwapInPlace(Shuffled(v, draws), |draws|);
  }

  lemma SwapInPlace(v: seq<nat>, i: nat)
    requires i < |v|
    ensures SwapAt(v, i, i) == v
  {
  }

  /** Three of these draws are self-swaps. */
  lemma FirstPairSwapped(v: seq<nat>)
    requires |v| >= 4
    ensures AreDraws(v, [1, 1, 2, 3]) && Shuffled(v, [1, 1, 2, 3]) == SwapAt(v, 0, 1)
  {
    hide SwapAt, Shuffled, AreDraws;
    NothingDrawn(v);
    DrawAppends(v, [], 1);
    var one := [] + [1];
    SelfSwap(v, one);
    var two := one + [1];
    SelfSwap(v, two);
    var three := two + [2];
    SelfSwap(v, three);
    assert three + [3] == [1, 1, 2, 3];
  }

  lemma FrontIsOldest(a: Infos, v: seq<nat>, w: seq<nat>)
    requires |v| >= 4 && w == SwapAt(v, 0, 1) && forall i | 0 <= i < |v| :: v[i] in a
    requires forall i | i == 0 || i == 2 || i == 3 :: a[v[1]].nLastSuccess < a[v[i]].nLastSuccess
    ensures (forall i | 0 <= i < |w| :: w[i] in a) && OldestOf(a, w, 4) == 0 && w[0] == v[1] && w[1] == v[0]
  {
    assert w[0] == v[1] && w[1] == v[0] && w[2] == v[2] && w[3] == v[3];
    var k := OldestOf(a, w, 4);
    assert a[w[k]].nLastSuccess <= a[w[0]].nLastSuccess;
    hide OldestOf;
  }

  /** The ids in a tried bucket are distinct, each having one slot at most. */
  lemma TriedIsDistinct(a: Infos, vvTried: seq<seq<nat>>, vvNew: seq<set<nat>>, n: nat, b: nat)
    requires PlacesOk(a, vvTried, vvNew, {n}) && Slots(vvTried, n) == 0 && b < |vvTried|
    ensures AllDistinct(vvTried[b])
  {
    var v := vvTried[b];
    forall i, j | 0 <= i < j < |v| ensures v[i] != v[j] {
      if v[i] == v[j] {
        assert v[i] == n || PlaceOk(a, vvTried, vvNew, v[i]);
        TwiceInBucket(vvTried, b, i, j);
      }
    }
  }

  lemma {:induction false} TwiceInBucket(vvTried: seq<seq<nat>>, b: nat, i: nat, j: nat)
    requires b < |vvTried| && i < j < |vvTried[b]| && vvTried[b][i] == vvTried[b][j]
    ensures Slots(vvTried, vvTried[b][i]) >= 2
  {
    if b < |vvTried| - 1 {
      TwiceInBucket(vvTried[..|vvTried| - 1], b, i, j);
    } else {
      var v := vvTried[b];
      assert v == v[..j] + v[j..] && v[i] in v[..j] && v[j] in v[j..];
    }
  }

  // ---------- which new entry makes room for another (ShrinkNew) ----------

  ghost predicate MayBeTerrible(a: Infos, n: nat) {
    n in a && exists nNow: int :: a[n].IsTerrible(nNow)
  }

  /** Each entry was found good enough, at some time. */
  ghost predicate NoneTerrible(a: Infos, s: set<nat>) {
    forall n | n in s :: n in a && exists nNow: int :: !a[n].IsTerrible(nNow)
  }

  /** The order in which a set was visited. */
  ghost predicate Lists(order: seq<nat>, s: set<nat>) {
    s == (set i | 0 <= i < |order| :: order[i]) && AllDistinct(order)
  }

  /** Of the entries visited at the picked positions, n is one with the oldest time. */
  ghost predicate OldestPicked(a: Infos, order: seq<nat>, picks: set<nat>, n: nat) {
    && n in a && (exists p :: p in picks && p < |order| && order[p] == n)
    && (forall p | p in picks && p < |order| :: order[p] in a && a[n].nTime <= a[order[p]].nTime)
  }

  ghost predicate NonePicked(k: nat, picks: set<nat>) {
    forall p | p in picks :: p >= k
  }

  lemma FourPicks(n0: nat, n1: nat, n2: nat, n3: nat)
    ensures 1 <= |{n0, n1, n2, n3}| <= 4
  {
    assert n0 in {n0, n1, n2, n3};
    var s := {n0, n1, n2, n3};
    assert s == {n0} + ({n1} + ({n2} + {n3}));
  }

  lemma NoneTerribleKnown(a: Infos, s: set<nat>)
    requires NoneTerrible(a, s)
    ensures s <= a.Keys
  {
  }

  /** The loop over a bucket: what was visited, and the oldest of what was picked so far. */
  ghost predicate Picking(a: Infos, s: set<nat>, left: set<nat>, order: seq<nat>, picks: set<nat>, fSome: bool, n: nat) {
    && |order| + |left| == |s| && Lists(order, s - left)
    && if fSome then n in s && OldestPicked(a, order, picks, n) else NonePicked(|order|, picks)
  }

  lemma StartPicking(a: Infos, s: set<nat>, picks: set<nat>)
    ensures Picking(a, s, s, [], picks, false, 0)
  {
    assert s - s == {};
  }

  lemma PickingEnds(a: Infos, s: set<nat>, order: seq<nat>, picks: set<nat>, fSome: bool, n: nat)
    requires Picking(a, s, {}, order, picks, fSome, n) && 1 <= |picks| && forall p | p in picks :: p < |s|
    ensures |order| == |s| && Lists(order, s) && fSome && OldestPicked(a, order, picks, n)
  {
    hide Lists, OldestPicked;
    assert s - {} == s;
    var p :| p in picks;
  }

  lemma PickNext(a: Infos, s: set<nat>, left: set<nat>, order: seq<nat>, picks: set<nat>, fSome: bool, n: nat, it: nat)
    requires Picking(a, s, left, order, picks, fSome, n) && s <= a.Keys && left <= s && it in left
    ensures fSome ==> n in s
    ensures
      var picked := |order| in picks;
      Picking(a, s, left - {it}, order + [it], picks, fSome || picked,
              if picked && (!fSome || a[it].nTime < a[n].nTime) then it else n)
  {
    hide Lists, OldestPicked, NonePicked;
    assert left == left - {it} + {it};
    assert s - left + {it} == s - (left - {it});
    ListMore(order, s - left, it);
    PickMore(a, order, picks, it, fSome, n);
  }

  lemma ListMore(order: seq<nat>, s: set<nat>, it: nat)
    requires Lists(order, s) && it !in s
    ensures Lists(order + [it], s + {it})
  {
    var more := order + [it];
    forall x ensures x in s + {it} <==> x in (set i | 0 <= i < |more| :: more[i]) {
      if x in s {
        var i :| 0 <= i < |order| && order[i] == x;
        assert more[i] == x;
      }
      if x == it { assert more[|order|] == x; }
      if x in (set i | 0 <= i < |more| :: more[i]) {
        var i :| 0 <= i < |more| && more[i] == x;
        if i < |order| { assert order[i] == x; }
      }
    }
    forall i | 0 <= i < |order| ensures order[i] != it { assert order[i] in s; }
  }

  lemma PickMore(a: Infos, order: seq<nat>, picks: set<nat>, it: nat, fSome: bool, n: nat)
    requires it in a && (fSome ==> n in a)
    requires if fSome then OldestPicked(a, order, picks, n) else NonePicked(|order|, picks)
    ensures |order| !in picks ==> if fSome then OldestPicked(a, order + [it], picks, n) else NonePicked(|order| + 1, picks)
    ensures |order| in picks ==> OldestPicked(a, order + [it], picks, if !fSome || a[it].nTime < a[n].nTime then it else n)
  {
    var more := order + [it];
    assert more[|order|] == it;
    assert forall p | p in picks && p < |order| :: more[p] == order[p];
  }
}
