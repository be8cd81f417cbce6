/** How the address manager's operations act on its indexes, value by value: what each step
    changes and why the invariant survives. */
module AddrEffects {
  import opened AddrTables

  /** Nothing but positions in vRandom differs. */
  ghost predicate SameButPos(a: Infos, b: Infos) {
    a.Keys == b.Keys && forall n | n in a :: b[n] == a[n].(nRandomPos := b[n].nRandomPos)
  }

  lemma PosDoesNotMatter(a: Infos, b: Infos, mapAddr: map<CNetAddr, nat>, vvTried: seq<seq<nat>>, vvNew: seq<set<nat>>, skip: set<nat>)
    requires SameButPos(a, b)
    ensures PlacesOk(a, vvTried, vvNew, skip) ==> PlacesOk(b, vvTried, vvNew, skip)
    ensures AddrsOk(a, mapAddr) ==> AddrsOk(b, mapAddr)
    ensures TriedIds(a) == TriedIds(b) && NewIds(a) == NewIds(b)
  {
    hide Slots, Buckets;
    if PlacesOk(a, vvTried, vvNew, skip) {
      forall n: nat | n !in skip ensures PlaceOk(b, vvTried, vvNew, n) {
        assert PlaceOk(a, vvTried, vvNew, n);
      }
    }
  }

  /** Entry n has one reference less, or is gone with its last one; the others are the same
      but for positions. */
  ghost predicate OneRefLess(a: Infos, b: Infos, n: nat) {
    && n in a && (n in b <==> a[n].nRefCount > 1)
    && (n in b ==> b[n] == a[n].(nRefCount := a[n].nRefCount - 1, nRandomPos := b[n].nRandomPos))
    && b.Keys <= a.Keys
    && (forall m | m in a && m != n :: m in b && b[m] == a[m].(nRandomPos := b[m].nRandomPos))
  }

  /** Ids are handed out in order. */
  ghost predicate IdsOk(mapInfo: Infos, nIdCount: nat) {
    forall n | n in mapInfo :: n < nIdCount
  }

  /** Taking an id out of one bucket. */
  lemma LeaveBucket(a: Infos, b: Infos, vvTried: seq<seq<nat>>, vvNew: seq<set<nat>>, k: nat, n: nat, skip: set<nat>)
    requires k < |vvNew| && n in vvNew[k] && n !in skip && PlacesOk(a, vvTried, vvNew, skip) && OneRefLess(a, b, n)
    ensures PlacesOk(b, vvTried, vvNew[k := vvNew[k] - {n}], skip)
  {
    var after := vvNew[k := vvNew[k] - {n}];
    BucketsMember(vvNew, k, n);
    forall m: nat | m !in skip ensures PlaceOk(b, vvTried, after, m) {
      assert PlaceOk(a, vvTried, vvNew, m) && PlaceOk(a, vvTried, vvNew, n);
      BucketsUpdate(vvNew, k, vvNew[k] - {n}, m);
      hide Slots, Buckets;
    }
  }

  lemma SizesShrink(vvTried: seq<seq<nat>>, vvNew: seq<set<nat>>, k: nat, n: nat)
    requires SizesOk(vvTried, vvNew) && k < |vvNew|
    ensures SizesOk(vvTried, vvNew[k := vvNew[k] - {n}])
    ensures n in vvNew[k] ==> |vvNew[k] - {n}| < |vvNew[k]|
  {
    SmallerSet(vvNew[k], n);
  }

  lemma SmallerSet(s: set<nat>, n: nat)
    ensures |s - {n}| <= |s| && (n in s ==> |s - {n}| == |s| - 1)
  {
    if n in s { assert s == (s - {n}) + {n}; } else { assert s - {n} == s; }
  }

  /** Putting an id into one more bucket. */
  lemma JoinBucket(a: Infos, vvTried: seq<seq<nat>>, vvNew: seq<set<nat>>, k: nat, n: nat)
    requires k < |vvNew| && n !in vvNew[k] && n in a && PlacesOk(a, vvTried, vvNew, {n})
    requires EntryOk(a[n], Slots(vvTried, n), Buckets(vvNew, n) + 1)
    ensures PlacesOk(a, vvTried, vvNew[k := vvNew[k] + {n}], {})
  {
    var after := vvNew[k := vvNew[k] + {n}];
    forall m: nat ensures PlaceOk(a, vvTried, after, m) {
      assert m != n ==> PlaceOk(a, vvTried, vvNew, m);
      BucketsUpdate(vvNew, k, vvNew[k] + {n}, m);
      hide Slots, Buckets;
    }
  }

  /** The last position goes when its id does. */
  lemma PopRandom(a: Infos, vRandom: seq<nat>, n: nat)
    requires RandomOk(a, vRandom) && n in a && a[n].nRandomPos == |vRandom| - 1
    ensures RandomOk(a - {n}, vRandom[..|vRandom| - 1])
  {
  }

  lemma EraseAddr(a: Infos, mapAddr: map<CNetAddr, nat>, n: nat)
    requires AddrsOk(a, mapAddr) && n in a
    ensures AddrsOk(a - {n}, mapAddr - {a[n].service.addr})
  {
  }

  lemma EraseCounts(a: Infos, n: nat, nTried: int, nNew: int)
    requires n in a && !a[n].fInTried && CountsOk(a, nTried, nNew)
    ensures CountsOk(a - {n}, nTried, nNew - 1)
  {
    assert NewIds(a) == NewIds(a - {n}) + {n};
    assert TriedIds(a) == TriedIds(a - {n});
  }

  lemma EraseSame(a: Infos, b: Infos, n: nat)
    requires SameButPos(a, b) && n in a
    ensures SameButPos(a - {n}, b - {n}) && n in b && b[n].fInTried == a[n].fInTried && b[n].service == a[n].service
  {
  }

  lemma SwapKeeps(a: Infos, vRandom: seq<nat>, i: nat, j: nat)
    requires RandomOk(a, vRandom) && i < |vRandom| && j < |vRandom| && i != j
    ensures vRandom[i] in a && vRandom[j] in a && vRandom[i] != vRandom[j]
    ensures
      var b := a[vRandom[i] := a[vRandom[i]].(nRandomPos := j)];
      var c := b[vRandom[j] := b[vRandom[j]].(nRandomPos := i)];
      RandomOk(c, vRandom[i := vRandom[j]][j := vRandom[i]]) && SameButPos(a, c)
  {
  }

  lemma RandomAt(a: Infos, vRandom: seq<nat>, n: nat)
    requires RandomOk(a, vRandom) && n in a
    ensures a[n].nRandomPos < |vRandom| && vRandom[a[n].nRandomPos] == n
  {
  }

  /** Once an entry is last in vRandom, dropping it there and in both maps is consistent. */
  lemma EraseKeeps(a: Infos, b: Infos, mapAddr: map<CNetAddr, nat>, vRandom: seq<nat>, n: nat, nTried: int, nNew: int)
    requires AddrsOk(a, mapAddr) && CountsOk(a, nTried, nNew) && n in a && !a[n].fInTried
    requires SameButPos(a, b) && RandomOk(b, vRandom) && vRandom != [] && vRandom[|vRandom| - 1] == n
    ensures RandomOk(b - {n}, vRandom[..|vRandom| - 1]) && AddrsOk(b - {n}, mapAddr - {a[n].service.addr})
    ensures CountsOk(b - {n}, nTried, nNew - 1) && SameButPos(a - {n}, b - {n})
  {
    PosDoesNotMatter(a, b, mapAddr, [], [], {});
    EraseSame(a, b, n);
    RandomLast(b, vRandom, n);
    PopRandom(b, vRandom, n);
    EraseAddr(b, mapAddr, n);
    EraseCounts(b, n, nTried, nNew);
    hide RandomOk, AddrsOk, CountsOk, SameButPos;
  }

  lemma RandomLast(a: Infos, vRandom: seq<nat>, n: nat)
    requires RandomOk(a, vRandom) && vRandom != [] && vRandom[|vRandom| - 1] == n
    ensures n in a && a[n].nRandomPos == |vRandom| - 1
  {
  }

  /** The address is known under that very port. */
  ghost predicate Known(a: Infos, mapAddr: map<CNetAddr, nat>, addr: CService) {
    addr.addr in mapAddr && mapAddr[addr.addr] in a && a[mapAddr[addr.addr]].service == addr
  }

  lemma BucketCount(vvTried: seq<seq<nat>>, vvNew: seq<set<nat>>)
    requires SizesOk(vvTried, vvNew)
    ensures |vvNew| == ADDRMAN_NEW_BUCKET_COUNT && |vvTried| == ADDRMAN_TRIED_BUCKET_COUNT
  {
  }

  /** Only times and attempts differ, and stay sensible. */
  predicate StatsOnly(a: CAddrInfo, b: CAddrInfo) {
    && b == a.(nTime := b.nTime, nLastTry := b.nLastTry, nLastSuccess := b.nLastSuccess, nAttempts := b.nAttempts)
    && b.nLastTry >= 0 && b.nLastSuccess >= 0 && (a.fInTried ==> b.nLastSuccess > 0)
  }

  lemma StatsKeep(a: Infos, vvTried: seq<seq<nat>>, vvNew: seq<set<nat>>, nTried: int, nNew: int, n: nat, info: CAddrInfo)
    requires n in a && StatsOnly(a[n], info)
    ensures PlacesOk(a, vvTried, vvNew, {}) ==> PlacesOk(a[n := info], vvTried, vvNew, {})
    ensures CountsOk(a, nTried, nNew) ==> CountsOk(a[n := info], nTried, nNew)
  {
    var b := a[n := info];
    assert TriedIds(b) == TriedIds(a) && NewIds(b) == NewIds(a);
    hide Slots, Buckets;
    if PlacesOk(a, vvTried, vvNew, {}) {
      forall m: nat ensures PlaceOk(b, vvTried, vvNew, m) {
        assert PlaceOk(a, vvTried, vvNew, m);
      }
    }
  }

  lemma StatsAreOk(a: Infos, vvTried: seq<seq<nat>>, vvNew: seq<set<nat>>, n: nat)
    requires PlacesOk(a, vvTried, vvNew, {}) && n in a
    ensures a[n].nLastTry >= 0 && a[n].nLastSuccess >= 0
    ensures if a[n].fInTried then a[n].nRefCount == 0 && a[n].nLastSuccess > 0 else 1 <= a[n].nRefCount <= ADDRMAN_NEW_BUCKETS_PER_ADDRESS
    ensures !a[n].fInTried ==> Slots(vvTried, n) == 0 && Buckets(vvNew, n) == a[n].nRefCount
  {
    assert PlaceOk(a, vvTried, vvNew, n);
  }

  lemma IsFree(a: Infos, vvTried: seq<seq<nat>>, vvNew: seq<set<nat>>, n: nat)
    requires Free(a, vvTried, vvNew, n)
    ensures n in a && !a[n].fInTried && Slots(vvTried, n) == 0
  {
  }

  /** Entry n moves to the tried table; entry `evicted`, unless it is n, moves back. */
  function MovedToTried(a: Infos, n: nat, evicted: nat): Infos
    requires n in a && evicted in a
  {
    var detached := a[n := a[n].(nRefCount := 0)];
    if evicted == n then detached[n := detached[n].(fInTried := true)] else Swapped(detached, n, evicted)
  }

  /** All entries but n are as before, except that `evicted`, when it is not n, is new again. */
  ghost predicate OthersAfterGood(a: Infos, b: Infos, n: nat, evicted: nat) {
    && (forall m | m in a && m != n && m != evicted :: m in b && b[m] == a[m])
    && (evicted != n ==> && evicted in a && a[evicted].fInTried && evicted in b
                         && b[evicted] == a[evicted].(fInTried := false, nRefCount := 1))
  }

  function SetSlot(vvTried: seq<seq<nat>>, k: nat, i: nat, n: nat): seq<seq<nat>>
    requires k < |vvTried| && i < |vvTried[k]|
  {
    var s: seq<nat> := vvTried[k][i := n];
    vvTried[k := s]
  }

  /** Entry n joins the tried table in the place of m. */
  function Swapped(a: Infos, n: nat, m: nat): Infos
    requires n in a && m in a
  {
    a[m := a[m].(fInTried := false, nRefCount := 1)][n := a[n].(fInTried := true)]
  }

  lemma TriedInTable(a: Infos, vvTried: seq<seq<nat>>, vvNew: seq<set<nat>>, n: nat, k: nat)
    requires PlacesOk(a, vvTried, vvNew, {n}) && Slots(vvTried, n) == 0 && k < |vvTried|
    ensures forall i | 0 <= i < |vvTried[k]| :: vvTried[k][i] in a && vvTried[k][i] != n && a[vvTried[k][i]].fInTried
  {
    forall i | 0 <= i < |vvTried[k]| ensures vvTried[k][i] in a && vvTried[k][i] != n && a[vvTried[k][i]].fInTried {
      SlotsMember(vvTried, k, i);
      assert vvTried[k][i] != n ==> PlaceOk(a, vvTried, vvNew, vvTried[k][i]);
    }
  }

  lemma PermuteKeeps(a: Infos, before: seq<seq<nat>>, vvTried: seq<seq<nat>>, vvNew: seq<set<nat>>, n: nat, k: nat)
    requires k < |before| && |vvTried| == |before| && vvTried == before[k := vvTried[k]] && multiset(vvTried[k]) == multiset(before[k])
    requires PlacesOk(a, before, vvNew, {n}) && SizesOk(before, vvNew) && Free(a, before, vvNew, n)
    ensures PlacesOk(a, vvTried, vvNew, {n}) && SizesOk(vvTried, vvNew) && Free(a, vvTried, vvNew, n)
    ensures |vvTried[k]| == |before[k]|
  {
    assert |vvTried[k]| == |multiset(vvTried[k])| == |multiset(before[k])| == |before[k]|;
    forall m: nat ensures Slots(vvTried, m) == Slots(before, m) {
      SlotsUpdate(before, k, vvTried[k], m);
    }
    hide Slots, Buckets, EntryOk;
    forall m: nat | m != n ensures PlaceOk(a, vvTried, vvNew, m) {
      assert PlaceOk(a, before, vvNew, m);
    }
  }

  lemma ReplaceOne(s: seq<nat>, i: nat, n: nat, m: nat)
    requires i < |s|
    ensures multiset(s[i := n])[m] == multiset(s)[m] - (if m == s[i] then 1 else 0) + (if m == n then 1 else 0)
  {
    assert s[i := n] == s[..i] + [n] + s[i + 1..];
    assert s == s[..i] + [s[i]] + s[i + 1..];
  }

  lemma EvictKeeps(a: Infos, vvTried: seq<seq<nat>>, vvNew: seq<set<nat>>, n: nat, k: nat, i: nat, target: nat)
    requires PlacesOk(a, vvTried, vvNew, {n}) && SizesOk(vvTried, vvNew) && Free(a, vvTried, vvNew, n)
    requires k < ADDRMAN_TRIED_BUCKET_COUNT && i < |vvTried[k]| && target < ADDRMAN_NEW_BUCKET_COUNT && |vvNew[target]| < ADDRMAN_NEW_BUCKET_SIZE
    ensures
      var m := vvTried[k][i];
      && m in a && m != n && a[m].fInTried
      && PlacesOk(Swapped(a, n, m), SetSlot(vvTried, k, i, n), vvNew[target := vvNew[target] + {m}], {})
      && SizesOk(SetSlot(vvTried, k, i, n), vvNew[target := vvNew[target] + {m}])
  {
    var m := vvTried[k][i];
    TriedInTable(a, vvTried, vvNew, n, k);
    var b, triedAfter, newAfter := Swapped(a, n, m), SetSlot(vvTried, k, i, n), vvNew[target := vvNew[target] + {m}];
    assert PlaceOk(a, vvTried, vvNew, m);
    if m in vvNew[target] { BucketsMember(vvNew, target, m); }
    forall x: nat ensures PlaceOk(b, triedAfter, newAfter, x) {
      EvictOne(a, vvTried, vvNew, n, m, k, i, target, x);
    }
    hide Slots, Buckets, PlacesOk;
  }

  lemma EvictOne(a: Infos, vvTried: seq<seq<nat>>, vvNew: seq<set<nat>>, n: nat, m: nat, k: nat, i: nat, target: nat, x: nat)
    requires k < |vvTried| && i < |vvTried[k]| && target < |vvNew| && m == vvTried[k][i] && m !in vvNew[target]
    requires n in a && m in a && m != n && a[m].fInTried && PlaceOk(a, vvTried, vvNew, m) && Free(a, vvTried, vvNew, n)
    requires PlacesOk(a, vvTried, vvNew, {n})
    ensures PlaceOk(Swapped(a, n, m), SetSlot(vvTried, k, i, n), vvNew[target := vvNew[target] + {m}], x)
  {
    var s: seq<nat> := vvTried[k][i := n];
    SlotsUpdate(vvTried, k, s, x);
    ReplaceOne(vvTried[k], i, n, x);
    BucketsUpdate(vvNew, target, vvNew[target] + {m}, x);
    assert x != n ==> PlaceOk(a, vvTried, vvNew, x);
    hide Slots, Buckets;
  }

  /** An exchange between the tables matters to no index and no counter. */
  lemma SwapIndexes(a: Infos, mapAddr: map<CNetAddr, nat>, vRandom: seq<nat>, nIdCount: nat, n: nat, m: nat)
    requires n in a && m in a
    ensures AddrsOk(a, mapAddr) ==> AddrsOk(Swapped(a, n, m), mapAddr)
    ensures RandomOk(a, vRandom) ==> RandomOk(Swapped(a, n, m), vRandom)
    ensures IdsOk(a, nIdCount) ==> IdsOk(Swapped(a, n, m), nIdCount)
  {
    SameIndexes(a, Swapped(a, n, m), mapAddr, vRandom, nIdCount);
  }

  /** The indexes see ids, addresses and positions only. */
  lemma SameIndexes(a: Infos, b: Infos, mapAddr: map<CNetAddr, nat>, vRandom: seq<nat>, nIdCount: nat)
    requires a.Keys == b.Keys && forall n | n in a :: b[n].service == a[n].service && b[n].nRandomPos == a[n].nRandomPos
    ensures AddrsOk(a, mapAddr) ==> AddrsOk(b, mapAddr)
    ensures RandomOk(a, vRandom) ==> RandomOk(b, vRandom)
    ensures IdsOk(a, nIdCount) ==> IdsOk(b, nIdCount)
  {
    if RandomOk(a, vRandom) { RandomSame(a, b, vRandom); }
    hide RandomOk;
  }

  lemma RandomSame(a: Infos, b: Infos, vRandom: seq<nat>)
    requires a.Keys == b.Keys && (forall n | n in a :: b[n].nRandomPos == a[n].nRandomPos) && RandomOk(a, vRandom)
    ensures RandomOk(b, vRandom)
  {
  }

  lemma SwapCounts(a: Infos, nTried: int, nNew: int, n: nat, m: nat)
    requires n in a && m in a && !a[n].fInTried && a[m].fInTried && CountsOk(a, nTried, nNew)
    ensures CountsOk(Swapped(a, n, m), nTried, nNew)
  {
    var b := Swapped(a, n, m);
    assert TriedIds(b) == TriedIds(a) - {m} + {n};
    assert NewIds(b) == NewIds(a) - {n} + {m};
    hide Swapped, TriedIds, NewIds;
    SmallerSet(TriedIds(a), m);
    SmallerSet(NewIds(a), n);
  }

  lemma RefCleared(a: Infos, mapAddr: map<CNetAddr, nat>, vRandom: seq<nat>, nIdCount: nat, nTried: int, nNew: int, n: nat)
    requires n in a
    ensures
      var b := a[n := a[n].(nRefCount := 0)];
      && (AddrsOk(a, mapAddr) ==> AddrsOk(b, mapAddr)) && (RandomOk(a, vRandom) ==> RandomOk(b, vRandom)) && (IdsOk(a, nIdCount) ==> IdsOk(b, nIdCount))
      && (CountsOk(a, nTried, nNew) ==> CountsOk(b, nTried, nNew))
  {
    var b := a[n := a[n].(nRefCount := 0)];
    assert TriedIds(b) == TriedIds(a) && NewIds(b) == NewIds(a);
  }

  /** The first b buckets are rid of n, and no other id has moved. */
  ghost predicate LeftSoFar(before: seq<set<nat>>, now: seq<set<nat>>, b: nat, n: nat) {
    && |now| == |before|
    && (forall k | 0 <= k < |now| :: now[k] == if k < b then before[k] - {n} else before[k])
    && (forall m: nat | m != n :: Buckets(now, m) == Buckets(before, m))
  }

  lemma LeaveStep(before: seq<set<nat>>, now: seq<set<nat>>, b: nat, n: nat, vvTried: seq<seq<nat>>)
    requires LeftSoFar(before, now, b, n) && b < |now| && SizesOk(vvTried, now)
    ensures LeftSoFar(before, now[b := now[b] - {n}], b + 1, n) && SizesOk(vvTried, now[b := now[b] - {n}])
    ensures Buckets(now[b := now[b] - {n}], n) == Buckets(now, n) - (if n in now[b] then 1 else 0)
  {
    forall m: nat ensures Buckets(now[b := now[b] - {n}], m) == Buckets(now, m) - (if m == n && n in now[b] then 1 else 0) {
      BucketsUpdate(now, b, now[b] - {n}, m);
    }
    SizesShrink(vvTried, now, b, n);
    hide Buckets, SizesOk;
  }

  lemma LeftAll(a: Infos, vvTried: seq<seq<nat>>, before: seq<set<nat>>, now: seq<set<nat>>, n: nat)
    requires PlacesOk(a, vvTried, before, {}) && LeftSoFar(before, now, |now|, n) && n in a && !a[n].fInTried
    ensures Buckets(now, n) == 0 && Slots(vvTried, n) == 0
    ensures PlacesOk(a[n := a[n].(nRefCount := 0)], vvTried, now, {n})
    ensures |now| == |before| && forall b | 0 <= b < |now| :: now[b] == before[b] - {n}
  {
    NoBucket(now, n);
    assert PlaceOk(a, vvTried, before, n);
    hide Slots, Buckets, EntryOk;
    var b := a[n := a[n].(nRefCount := 0)];
    forall m: nat | m != n ensures PlaceOk(b, vvTried, now, m) {
      assert PlaceOk(a, vvTried, before, m);
    }
  }

  /** An entry in no bucket and no slot, good enough for the tried table. */
  ghost predicate Free(a: Infos, vvTried: seq<seq<nat>>, vvNew: seq<set<nat>>, n: nat) {
    && n in a && !a[n].fInTried && a[n].nRefCount == 0 && a[n].nLastTry >= 0 && a[n].nLastSuccess > 0
    && Slots(vvTried, n) == 0 && Buckets(vvNew, n) == 0
  }

  lemma PushKeeps(a: Infos, vvTried: seq<seq<nat>>, vvNew: seq<set<nat>>, n: nat, k: nat)
    requires PlacesOk(a, vvTried, vvNew, {n}) && SizesOk(vvTried, vvNew) && Free(a, vvTried, vvNew, n)
    requires k < ADDRMAN_TRIED_BUCKET_COUNT && |vvTried[k]| < ADDRMAN_TRIED_BUCKET_SIZE
    ensures PlacesOk(a[n := a[n].(fInTried := true)], vvTried[k := vvTried[k] + [n]], vvNew, {})
    ensures SizesOk(vvTried[k := vvTried[k] + [n]], vvNew)
  {
    var b := a[n := a[n].(fInTried := true)];
    var after := vvTried[k := vvTried[k] + [n]];
    forall m: nat ensures PlaceOk(b, after, vvNew, m) {
      SlotsUpdate(vvTried, k, vvTried[k] + [n], m);
      OneMore(vvTried[k], n, m);
      assert m != n ==> PlaceOk(a, vvTried, vvNew, m);
      hide Slots, Buckets;
    }
  }

  lemma OneMore(s: seq<nat>, n: nat, m: nat)
    ensures multiset(s + [n])[m] == multiset(s)[m] + (if m == n then 1 else 0)
  {
  }

  /** Moving to the tried table matters to the counters only. */
  lemma TriedFlag(a: Infos, mapAddr: map<CNetAddr, nat>, vRandom: seq<nat>, nIdCount: nat, nTried: int, nNew: int, n: nat)
    requires n in a && !a[n].fInTried
    ensures
      var b := a[n := a[n].(fInTried := true)];
      && (AddrsOk(a, mapAddr) ==> AddrsOk(b, mapAddr)) && (RandomOk(a, vRandom) ==> RandomOk(b, vRandom)) && (IdsOk(a, nIdCount) ==> IdsOk(b, nIdCount))
      && (CountsOk(a, nTried, nNew) ==> CountsOk(b, nTried + 1, nNew - 1))
  {
    var b := a[n := a[n].(fInTried := true)];
    assert TriedIds(b) == TriedIds(a) + {n} && NewIds(b) == NewIds(a) - {n};
    assert NewIds(a) == NewIds(b) + {n};
  }

  lemma UnrefDone(a: Infos, b: Infos, vvTried: seq<seq<nat>>, vvNew: seq<set<nat>>, k: nat, n: nat, skip: set<nat>, nIdCount: nat)
    requires PlacesOk(a, vvTried, vvNew, skip) && SizesOk(vvTried, vvNew) && IdsOk(a, nIdCount)
    requires k < |vvNew| && n in vvNew[k] && n !in skip && n in a && a[n].nRefCount >= 1
    requires
      var lowered := a[n := a[n].(nRefCount := a[n].nRefCount - 1)];
      if a[n].nRefCount == 1 then SameButPos(lowered - {n}, b) else b == lowered
    ensures PlacesOk(b, vvTried, vvNew[k := vvNew[k] - {n}], skip) && SizesOk(vvTried, vvNew[k := vvNew[k] - {n}])
    ensures OneRefLess(a, b, n) && IdsOk(b, nIdCount)
  {
    SizesShrink(vvTried, vvNew, k, n);
    RefLess(a, b, n);
    hide *;
    LeaveBucket(a, b, vvTried, vvNew, k, n, skip);
  }

  /** An id in a new bucket is an entry that is not tried. */
  lemma HeldMeansNew(a: Infos, vvTried: seq<seq<nat>>, vvNew: seq<set<nat>>, k: nat, n: nat, skip: set<nat>)
    requires PlacesOk(a, vvTried, vvNew, skip) && n !in skip && k < |vvNew| && n in vvNew[k]
    ensures n in a && !a[n].fInTried && 1 <= a[n].nRefCount <= ADDRMAN_NEW_BUCKETS_PER_ADDRESS
  {
    BucketsMember(vvNew, k, n);
    assert PlaceOk(a, vvTried, vvNew, n);
  }

  lemma RefLess(a: Infos, b: Infos, n: nat)
    requires n in a && a[n].nRefCount >= 1
    requires
      var lowered := a[n := a[n].(nRefCount := a[n].nRefCount - 1)];
      if a[n].nRefCount == 1 then SameButPos(lowered - {n}, b) else b == lowered
    ensures OneRefLess(a, b, n) && forall k: nat :: IdsOk(a, k) ==> IdsOk(b, k)
  {
  }

  /** A reference count matters to no index. */
  lemma RefDown(a: Infos, mapAddr: map<CNetAddr, nat>, vRandom: seq<nat>, n: nat, nTried: int, nNew: int)
    requires n in a
    ensures
      var b := a[n := a[n].(nRefCount := a[n].nRefCount - 1)];
      && (AddrsOk(a, mapAddr) ==> AddrsOk(b, mapAddr)) && (RandomOk(a, vRandom) ==> RandomOk(b, vRandom))
      && (CountsOk(a, nTried, nNew) ==> CountsOk(b, nTried, nNew))
  {
    var b := a[n := a[n].(nRefCount := a[n].nRefCount - 1)];
    assert TriedIds(b) == TriedIds(a) && NewIds(b) == NewIds(a);
  }
}
