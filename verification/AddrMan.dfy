/** The stochastic address manager (addrman.cpp, CAddrMan). Random choices, the clock and the
    hashes that choose buckets are arbitrary; sets are visited in arbitrary order. */
module AddrMan {
  import opened AddrTables
  import opened AddrEffects
  import opened AddrJoin
  import opened AddrSample
  import opened AddrCheck
  import opened AddrSelect

  class CAddrMan {
    var nIdCount: nat
    var mapInfo: Infos
    var mapAddr: map<CNetAddr, nat>
    var vRandom: seq<nat>
    var nTried: int
    var vvTried: seq<seq<nat>>
    var nNew: int
    var vvNew: seq<set<nat>>

    /** All that holds between calls, but for the places of the ids in `skip`. */
    ghost predicate ValidBut(skip: set<nat>)
      reads this
    {
      && PlacesOk(mapInfo, vvTried, vvNew, skip) && SizesOk(vvTried, vvNew) && AddrsOk(mapInfo, mapAddr)
      && RandomOk(mapInfo, vRandom) && CountsOk(mapInfo, nTried, nNew)
      && IdsOk(mapInfo, nIdCount)
    }

    ghost predicate Valid()
      reads this
    {
      ValidBut({})
    }

    constructor ()
      ensures Valid() && mapInfo == map[] && mapAddr == map[]
    {
      nIdCount, nTried, nNew := 0, 0, 0;
      mapInfo, mapAddr, vRandom := map[], map[], [];
      vvTried := seq(ADDRMAN_TRIED_BUCKET_COUNT, _ => []);
      vvNew := seq(ADDRMAN_NEW_BUCKET_COUNT, _ => {});
      new;
      forall n: nat ensures PlaceOk(mapInfo, vvTried, vvNew, n) {
        NoBucket(vvNew, n);
        NoSlot(vvTried, n);
      }
      hide PlacesOk, Slots, Buckets;
      assert TriedIds(mapInfo) == {} && NewIds(mapInfo) == {};
    }

    method SwapRandom(nRndPos1: nat, nRndPos2: nat)
      requires RandomOk(mapInfo, vRandom) && nRndPos1 < |vRandom| && nRndPos2 < |vRandom|
      modifies this`mapInfo, this`vRandom
      ensures RandomOk(mapInfo, vRandom) && SameButPos(old(mapInfo), mapInfo)
      ensures vRandom == old(vRandom)[nRndPos1 := old(vRandom)[nRndPos2]][nRndPos2 := old(vRandom)[nRndPos1]]
    {
      if nRndPos1 == nRndPos2 {
        return;
      }
      var nId1 := vRandom[nRndPos1];
      var nId2 := vRandom[nRndPos2];
      SwapKeeps(mapInfo, vRandom, nRndPos1, nRndPos2);
      hide RandomOk, SameButPos;
      mapInfo := mapInfo[nId1 := mapInfo[nId1].(nRandomPos := nRndPos2)];
      mapInfo := mapInfo[nId2 := mapInfo[nId2].(nRandomPos := nRndPos1)];
      vRandom := vRandom[nRndPos1 := nId2];
      vRandom := vRandom[nRndPos2 := nId1];
    }

    /** Erases an entry that no bucket holds any more. */
    method Erase(n: nat)
      requires RandomOk(mapInfo, vRandom) && AddrsOk(mapInfo, mapAddr) && CountsOk(mapInfo, nTried, nNew)
      requires n in mapInfo && !mapInfo[n].fInTried
      modifies this`mapInfo, this`mapAddr, this`vRandom, this`nNew
      ensures RandomOk(mapInfo, vRandom) && AddrsOk(mapInfo, mapAddr) && CountsOk(mapInfo, nTried, nNew)
      ensures SameButPos(old(mapInfo) - {n}, mapInfo)
    {
      hide *;
      var info := mapInfo[n];
      RandomAt(mapInfo, vRandom, n);
      SwapRandom(info.nRandomPos, |vRandom| - 1);
      EraseKeeps(old(mapInfo), mapInfo, mapAddr, vRandom, n, nTried, nNew);
      vRandom := vRandom[..|vRandom| - 1];
      mapAddr := mapAddr - {info.service.addr};
      mapInfo := mapInfo - {n};
      nNew := nNew - 1;
    }

    /** Takes an entry out of a bucket, and out of the tables with its last reference. */
    method Unref(n: nat, nUBucket: nat, ghost skip: set<nat>)
      requires ValidBut(skip) && nUBucket < ADDRMAN_NEW_BUCKET_COUNT && n in vvNew[nUBucket] && n !in skip
      modifies this`mapInfo, this`mapAddr, this`vRandom, this`nNew, this`vvNew
      ensures ValidBut(skip) && vvNew == old(vvNew)[nUBucket := old(vvNew)[nUBucket] - {n}]
      ensures OneRefLess(old(mapInfo), mapInfo, n)
    {
      hide PlacesOk, AddrsOk, RandomOk, CountsOk, IdsOk, SizesOk, Slots, Buckets, EntryOk, PlaceOk, OneRefLess, SameButPos;
      ghost var before := mapInfo;
      BucketCount(vvTried, vvNew);
      HeldMeansNew(mapInfo, vvTried, vvNew, nUBucket, n, skip);
      RefDown(mapInfo, mapAddr, vRandom, n, nTried, nNew);
      var nRefCount := mapInfo[n].nRefCount - 1;
      mapInfo := mapInfo[n := mapInfo[n].(nRefCount := nRefCount)];
      if nRefCount == 0 {
        Erase(n);
      }
      UnrefDone(before, mapInfo, vvTried, vvNew, nUBucket, n, skip, nIdCount);
      vvNew := vvNew[nUBucket := vvNew[nUBucket] - {n}];
    }

    /** Finds an entry of a bucket that may simply be dropped; else none was, when looked at. */
    method FindTerrible(nUBucket: nat, ghost skip: set<nat>) returns (found: bool, n: nat)
      requires ValidBut(skip) && nUBucket < ADDRMAN_NEW_BUCKET_COUNT && vvNew[nUBucket] !! skip
      ensures found ==> n in vvNew[nUBucket] && MayBeTerrible(mapInfo, n)
      ensures !found ==> NoneTerrible(mapInfo, vvNew[nUBucket])
    {
      found, n := false, 0;
      var left := vvNew[nUBucket];
      hide PlacesOk, AddrsOk, RandomOk, CountsOk, IdsOk, CAddrInfo.IsTerrible;
      while left != {}
        invariant left <= vvNew[nUBucket] && NoneTerrible(mapInfo, vvNew[nUBucket] - left)
        decreases left
      {
        var it :| it in left;
        HeldMeansNew(mapInfo, vvTried, vvNew, nUBucket, it, skip);
        var nNow: int := *; // GetAdjustedTime
        if mapInfo[it].IsTerrible(nNow) {
          return true, it;
        }
        left := left - {it};
      }
    }

    /** The entry with the oldest nTime among at most four randomly chosen ones. */
    method FindOldest(vNew: set<nat>) returns (nOldest: nat, ghost order: seq<nat>, ghost picks: set<nat>)
      requires vNew != {} && vNew <= mapInfo.Keys
      ensures nOldest in vNew && Lists(order, vNew) && |order| == |vNew|
      ensures 1 <= |picks| <= 4 && (forall p | p in picks :: p < |order|) && OldestPicked(mapInfo, order, picks, nOldest)
    {
      hide Picking, OldestPicked, Lists;
      var n0: nat :| n0 < |vNew|;
      var n1: nat :| n1 < |vNew|;
      var n2: nat :| n2 < |vNew|;
      var n3: nat :| n3 < |vNew|;
      order, picks := [], {n0, n1, n2, n3};
      FourPicks(n0, n1, n2, n3);
      StartPicking(mapInfo, vNew, picks);
      var nI := 0;
      var fSome := false;
      nOldest := 0;
      var left := vNew;
      while left != {}
        invariant left <= vNew && nI == |order|
        invariant Picking(mapInfo, vNew, left, order, picks, fSome, nOldest)
        invariant fSome ==> nOldest in vNew
        decreases left
      {
        var it :| it in left;
        PickNext(mapInfo, vNew, left, order, picks, fSome, nOldest, it);
        if nI == n0 || nI == n1 || nI == n2 || nI == n3 {
          if !fSome || mapInfo[it].nTime < mapInfo[nOldest].nTime {
            nOldest := it;
          }
          fSome := true;
        }
        nI := nI + 1;
        order := order + [it];
        left := left - {it};
      }
      PickingEnds(mapInfo, vNew, order, picks, fSome, nOldest);
    }

    /** Makes room in a bucket: 0 when an entry could simply be dropped. Else no entry could,
        1 is returned, and the oldest of the entries picked goes. */
    method ShrinkNew(nUBucket: nat, ghost skip: set<nat>) returns (r: nat, ghost n: nat, ghost order: seq<nat>, ghost picks: set<nat>)
      requires ValidBut(skip) && nUBucket < ADDRMAN_NEW_BUCKET_COUNT && vvNew[nUBucket] !! skip && vvNew[nUBucket] != {}
      modifies this`mapInfo, this`mapAddr, this`vRandom, this`nNew, this`vvNew
      ensures ValidBut(skip) && n in old(vvNew)[nUBucket]
      ensures vvNew == old(vvNew)[nUBucket := old(vvNew)[nUBucket] - {n}] && OneRefLess(old(mapInfo), mapInfo, n)
      ensures r == 0 || r == 1
      ensures r == 0 ==> MayBeTerrible(old(mapInfo), n)
      ensures r == 1 ==> NoneTerrible(old(mapInfo), old(vvNew)[nUBucket]) && Lists(order, old(vvNew)[nUBucket]) && |order| == |old(vvNew)[nUBucket]|
      ensures r == 1 ==> 1 <= |picks| <= 4 && (forall p | p in picks :: p < |order|) && OldestPicked(old(mapInfo), order, picks, n)
    {
      hide PlacesOk, AddrsOk, RandomOk, CountsOk, IdsOk, SizesOk, OneRefLess, CAddrInfo.IsTerrible, MayBeTerrible, NoneTerrible, OldestPicked, Lists;
      var found, victim := FindTerrible(nUBucket, skip);
      order, picks := [], {};
      if !found {
        BucketCount(vvTried, vvNew);
        NoneTerribleKnown(mapInfo, vvNew[nUBucket]);
        victim, order, picks := FindOldest(vvNew[nUBucket]);
      }
      r := if found then 0 else 1;
      n := victim;
      Unref(victim, nUBucket, skip);
    }

    /** Shuffles the front of a tried bucket and picks a slot: the one that the oldest of the
        inspected entries was drawn from. The slot is noted before the swap. */
    method SelectTried(nKBucket: nat) returns (nOldestPos: nat, ghost draws: seq<nat>)
      requires nKBucket < |vvTried| && vvTried[nKBucket] != [] && forall i | 0 <= i < |vvTried[nKBucket]| :: vvTried[nKBucket][i] in mapInfo
      modifies this`vvTried
      ensures |vvTried| == old(|vvTried|) && vvTried == old(vvTried)[nKBucket := vvTried[nKBucket]]
      ensures multiset(vvTried[nKBucket]) == multiset(old(vvTried)[nKBucket]) && nOldestPos < |vvTried[nKBucket]|
      ensures |draws| == Inspected(old(vvTried)[nKBucket]) && AreDraws(old(vvTried)[nKBucket], draws)
      ensures vvTried[nKBucket] == Shuffled(old(vvTried)[nKBucket], draws)
      ensures forall i | 0 <= i < |vvTried[nKBucket]| :: vvTried[nKBucket][i] in mapInfo
      ensures nOldestPos == SelectedSlot(mapInfo, old(vvTried)[nKBucket], draws)
    {
      hide Shuffled, OldestOf;
      var vTried := vvTried[nKBucket];
      ghost var before := vTried;
      var fSome, nOldest := false, 0;
      nOldestPos, draws := 0, [];
      NothingDrawn(before);
      var i := 0;
      while i < ADDRMAN_TRIED_ENTRIES_INSPECT_ON_EVICT && i < |vTried|
        invariant vvTried == old(vvTried) && i == |draws| <= Inspected(before) && AreDraws(before, draws) && vTried == Shuffled(before, draws)
        invariant forall k | 0 <= k < |vTried| :: vTried[k] in mapInfo
        invariant fSome == (i > 0)
        invariant fSome ==> var k0 := OldestOf(mapInfo, vTried, i); nOldest == vTried[k0] && nOldestPos == draws[k0]
        decreases |before| - i
      {
        var nPos: nat :| i <= nPos < |vTried|;
        var nTemp := vTried[nPos];
        ghost var last := vTried;
        vTried := vTried[nPos := vTried[i]][i := nTemp];
        NextDraw(mapInfo, before, draws, last, vTried, nPos);
        if !fSome || mapInfo[nTemp].nLastSuccess < mapInfo[nOldest].nLastSuccess {
          nOldest := nTemp;
          nOldestPos := nPos;
        }
        fSome := true;
        draws := draws + [nPos];
        i := i + 1;
      }
      ShuffledIsPermutation(before, draws);
      vvTried := vvTried[nKBucket := vTried];
    }

    /** Takes an entry out of every new bucket. */
    method LeaveNewBuckets(nId: nat)
      requires PlacesOk(mapInfo, vvTried, vvNew, {}) && SizesOk(vvTried, vvNew)
      requires nId in mapInfo && !mapInfo[nId].fInTried
      modifies this`mapInfo, this`vvNew
      ensures mapInfo == old(mapInfo)[nId := old(mapInfo)[nId].(nRefCount := 0)]
      ensures |vvNew| == |old(vvNew)| && forall b | 0 <= b < |vvNew| :: vvNew[b] == old(vvNew)[b] - {nId}
      ensures PlacesOk(mapInfo, vvTried, vvNew, {nId}) && SizesOk(vvTried, vvNew)
      ensures Buckets(vvNew, nId) == 0 && Slots(vvTried, nId) == 0
    {
      ghost var before := vvNew;
      var nRefCount := mapInfo[nId].nRefCount;
      assert PlaceOk(mapInfo, vvTried, vvNew, nId);
      assert LeftSoFar(before, vvNew, 0, nId);
      hide Slots, Buckets, EntryOk, LeftSoFar, SizesOk, PlacesOk, PlaceOk;
      for b := 0 to |vvNew|
        invariant |vvNew| == |before| && mapInfo == old(mapInfo) && SizesOk(vvTried, vvNew)
        invariant LeftSoFar(before, vvNew, b, nId) && nRefCount == Buckets(vvNew, nId)
      {
        LeaveStep(before, vvNew, b, nId, vvTried);
        if nId in vvNew[b] {
          nRefCount := nRefCount - 1;
        }
        vvNew := vvNew[b := vvNew[b] - {nId}];
      }
      LeftAll(old(mapInfo), vvTried, before, vvNew, nId);
      mapInfo := mapInfo[nId := mapInfo[nId].(nRefCount := nRefCount)];
    }

    /** Puts an entry that is in no bucket into a tried bucket that has room. */
    method PushTried(nId: nat, nKBucket: nat)
      requires ValidBut({nId}) && nKBucket < ADDRMAN_TRIED_BUCKET_COUNT && |vvTried[nKBucket]| < ADDRMAN_TRIED_BUCKET_SIZE
      requires Free(mapInfo, vvTried, vvNew, nId)
      modifies this`mapInfo, this`vvTried, this`nTried, this`nNew
      ensures Valid() && mapInfo == old(mapInfo)[nId := old(mapInfo)[nId].(fInTried := true)]
      ensures nTried == old(nTried) + 1 && nNew == old(nNew) - 1
    {
      PushKeeps(mapInfo, vvTried, vvNew, nId, nKBucket);
      TriedFlag(mapInfo, mapAddr, vRandom, nIdCount, nTried, nNew, nId);
      hide PlacesOk, SizesOk, AddrsOk, RandomOk, CountsOk, IdsOk, Free;
      nNew := nNew - 1;
      vvTried := vvTried[nKBucket := vvTried[nKBucket] + [nId]];
      nTried := nTried + 1;
      mapInfo := mapInfo[nId := mapInfo[nId].(fInTried := true)];
    }

    /** Puts such an entry into a full tried bucket, sending another entry back to a new one: the
        oldest of those inspected exactly when it was drawn from where it went. */
    method ReplaceTried(nId: nat, nOrigin: nat, nKBucket: nat) returns (ghost evicted: nat, ghost draws: seq<nat>)
      requires ValidBut({nId}) && nKBucket < ADDRMAN_TRIED_BUCKET_COUNT && |vvTried[nKBucket]| == ADDRMAN_TRIED_BUCKET_SIZE
      requires Free(mapInfo, vvTried, vvNew, nId)
      requires nOrigin < ADDRMAN_NEW_BUCKET_COUNT && |vvNew[nOrigin]| < ADDRMAN_NEW_BUCKET_SIZE
      modifies this`mapInfo, this`vvTried, this`vvNew
      ensures Valid() && evicted != nId && evicted in old(mapInfo) && old(mapInfo)[evicted].fInTried
      ensures mapInfo == Swapped(old(mapInfo), nId, evicted)
      ensures |draws| == ADDRMAN_TRIED_ENTRIES_INSPECT_ON_EVICT && AreDraws(old(vvTried)[nKBucket], draws)
      ensures forall i | 0 <= i < ADDRMAN_TRIED_BUCKET_SIZE :: Shuffled(old(vvTried)[nKBucket], draws)[i] in old(mapInfo)
      ensures var w := Shuffled(old(vvTried)[nKBucket], draws);
              var k := OldestOf(old(mapInfo), w, |draws|);
              evicted == w[draws[k]] && (evicted == w[k] <==> draws[k] == k)
    {
      hide PlacesOk, AddrsOk, RandomOk, CountsOk, IdsOk, SizesOk, Free, Swapped, SetSlot, Slots, Buckets, EntryOk, PlaceOk, Shuffled, OldestOf, AllDistinct;
      BucketCount(vvTried, vvNew);
      IsFree(mapInfo, vvTried, vvNew, nId);
      TriedInTable(mapInfo, vvTried, vvNew, nId, nKBucket);
      TriedIsDistinct(mapInfo, vvTried, vvNew, nId, nKBucket);
      ghost var before := vvTried;
      var nPos;
      nPos, draws := SelectTried(nKBucket);
      SlotHoldsOldestIff(mapInfo, before[nKBucket], draws);
      PermuteKeeps(mapInfo, before, vvTried, vvNew, nId, nKBucket);
      var nOld := vvTried[nKBucket][nPos];
      evicted := nOld;
      var nUBucket: nat :| nUBucket < ADDRMAN_NEW_BUCKET_COUNT; // GetNewBucket
      var nTarget := if |vvNew[nUBucket]| < ADDRMAN_NEW_BUCKET_SIZE then nUBucket else nOrigin;
      EvictKeeps(mapInfo, vvTried, vvNew, nId, nKBucket, nPos, nTarget);
      SwapIndexes(mapInfo, mapAddr, vRandom, nIdCount, nId, nOld);
      SwapCounts(mapInfo, nTried, nNew, nId, nOld);
      mapInfo := Swapped(mapInfo, nId, nOld);
      vvNew := vvNew[nTarget := vvNew[nTarget] + {nOld}];
      vvTried := SetSlot(vvTried, nKBucket, nPos, nId);
    }

    /** Takes an entry out of the new buckets, its count included. */
    method Detach(nId: nat, nOrigin: nat)
      requires Valid() && nOrigin < ADDRMAN_NEW_BUCKET_COUNT && nId in vvNew[nOrigin]
      requires nId in mapInfo && mapInfo[nId].nLastSuccess > 0
      modifies this`mapInfo, this`vvNew
      ensures ValidBut({nId}) && Free(mapInfo, vvTried, vvNew, nId) && |vvNew[nOrigin]| < ADDRMAN_NEW_BUCKET_SIZE
      ensures mapInfo == old(mapInfo)[nId := old(mapInfo)[nId].(nRefCount := 0)]
    {
      hide PlacesOk, AddrsOk, RandomOk, CountsOk, IdsOk, Slots, Buckets;
      HeldMeansNew(mapInfo, vvTried, vvNew, nOrigin, nId, {});
      SmallerSet(vvNew[nOrigin], nId);
      StatsAreOk(mapInfo, vvTried, vvNew, nId);
      RefCleared(mapInfo, mapAddr, vRandom, nIdCount, nTried, nNew, nId);
      LeaveNewBuckets(nId);
    }

    /** Moves an entry from the new buckets to the tried table. When its bucket is full an
        entry from there goes back. */
    method MakeTried(nId: nat, nOrigin: nat) returns (ghost evicted: nat)
      requires Valid() && nOrigin < ADDRMAN_NEW_BUCKET_COUNT && nId in vvNew[nOrigin]
      requires nId in mapInfo && mapInfo[nId].nLastSuccess > 0
      modifies this`mapInfo, this`vvTried, this`vvNew, this`nTried, this`nNew
      ensures Valid() && nTried + nNew == old(nTried) + old(nNew)
      ensures evicted in old(mapInfo) && mapInfo == MovedToTried(old(mapInfo), nId, evicted)
      ensures evicted == nId || old(mapInfo)[evicted].fInTried
    {
      hide PlacesOk, AddrsOk, RandomOk, CountsOk, IdsOk, Slots, Buckets, Free, SizesOk;
      evicted := nId;
      Detach(nId, nOrigin);
      var nKBucket := TriedBucket();
      if |vvTried[nKBucket]| < ADDRMAN_TRIED_BUCKET_SIZE {
        PushTried(nId, nKBucket);
      } else {
        ghost var draws;
        evicted, draws := ReplaceTried(nId, nOrigin, nKBucket);
      }
    }

    /** GetTriedBucket: some bucket. */
    method TriedBucket() returns (nKBucket: nat)
      requires SizesOk(vvTried, vvNew)
      ensures nKBucket < ADDRMAN_TRIED_BUCKET_COUNT == |vvTried| && |vvTried[nKBucket]| <= ADDRMAN_TRIED_BUCKET_SIZE
    {
      nKBucket :| nKBucket < ADDRMAN_TRIED_BUCKET_COUNT;
    }

    /** Find: an entry and its id. */
    method Find(addr: CNetAddr) returns (found: bool, nId: nat)
      requires AddrsOk(mapInfo, mapAddr)
      ensures found <==> addr in mapAddr
      ensures found ==> nId == mapAddr[addr] && nId in mapInfo && mapInfo[nId].service.addr == addr
    {
      found, nId := addr in mapAddr, 0;
      if found {
        nId := mapAddr[addr];
        found := nId in mapInfo;
      }
    }

    /** Changes an entry's statistics only. */
    method SetStats(nId: nat, info: CAddrInfo)
      requires Valid() && nId in mapInfo && StatsOnly(mapInfo[nId], info)
      modifies this`mapInfo
      ensures Valid() && mapInfo == old(mapInfo)[nId := info]
    {
      StatsKeep(mapInfo, vvTried, vvNew, nTried, nNew, nId, info);
      SameIndexes(mapInfo, mapInfo[nId := info], mapAddr, vRandom, nIdCount);
      hide PlacesOk, AddrsOk, RandomOk, CountsOk, IdsOk, SizesOk;
      mapInfo := mapInfo[nId := info];
    }

    method Attempt_(addr: CService, nTime: int)
      requires Valid() && nTime > 0
      modifies this`mapInfo
      ensures Valid()
      ensures mapInfo == if Known(old(mapInfo), mapAddr, addr)
                         then var n := mapAddr[addr.addr];
                              old(mapInfo)[n := old(mapInfo)[n].(nLastTry := nTime, nAttempts := old(mapInfo)[n].nAttempts + 1)]
                         else old(mapInfo)
    {
      hide PlacesOk, AddrsOk, RandomOk, CountsOk, IdsOk, SizesOk;
      var found, nId := Find(addr.addr);
      if !found || mapInfo[nId].service != addr {
        return;
      }
      StatsAreOk(mapInfo, vvTried, vvNew, nId);
      SetStats(nId, mapInfo[nId].(nLastTry := nTime, nAttempts := mapInfo[nId].nAttempts + 1));
    }

    method Connected_(addr: CService, nTime: int)
      requires Valid() && nTime > 0
      modifies this`mapInfo
      ensures Valid()
      ensures mapInfo == if Known(old(mapInfo), mapAddr, addr) && nTime - old(mapInfo)[mapAddr[addr.addr]].nTime > 20 * 60
                         then old(mapInfo)[mapAddr[addr.addr] := old(mapInfo)[mapAddr[addr.addr]].(nTime := nTime)]
                         else old(mapInfo)
    {
      hide PlacesOk, AddrsOk, RandomOk, CountsOk, IdsOk, SizesOk;
      var found, nId := Find(addr.addr);
      if !found || mapInfo[nId].service != addr {
        return;
      }
      StatsAreOk(mapInfo, vvTried, vvNew, nId);
      if nTime - mapInfo[nId].nTime > 20 * 60 {
        SetStats(nId, mapInfo[nId].(nTime := nTime));
      }
    }

    /** A bucket that holds an entry, looking from a random one on. */
    method FindBucket(nId: nat) returns (nUBucket: nat)
      requires |vvNew| == ADDRMAN_NEW_BUCKET_COUNT && Buckets(vvNew, nId) >= 1
      ensures nUBucket < ADDRMAN_NEW_BUCKET_COUNT && nId in vvNew[nUBucket]
    {
      ghost var home := SomeBucket(vvNew, nId);
      var nRnd: nat :| nRnd < ADDRMAN_NEW_BUCKET_COUNT;
      nUBucket := 0;
      var found := false;
      var n := 0;
      while n < |vvNew| && !found
        invariant n <= |vvNew| && (found ==> nUBucket < ADDRMAN_NEW_BUCKET_COUNT && nId in vvNew[nUBucket])
        invariant !found ==> n <= (home - nRnd) % ADDRMAN_NEW_BUCKET_COUNT
      {
        var nB := (n + nRnd) % ADDRMAN_NEW_BUCKET_COUNT;
        if nId in vvNew[nB] {
          nUBucket := nB;
          found := true;
        }
        n := n + 1;
      }
    }

    /** Marks an address good; afterwards its entry is in the tried table. At most one other
        entry changes: a tried one that goes back to a new bucket. */
    method Good_(addr: CService, nTime: int) returns (ghost evicted: nat)
      requires Valid() && nTime > 0
      modifies this`mapInfo, this`vvTried, this`vvNew, this`nTried, this`nNew
      ensures Valid() && nTried + nNew == old(nTried) + old(nNew) && mapInfo.Keys == old(mapInfo).Keys
      ensures !Known(old(mapInfo), mapAddr, addr) ==> mapInfo == old(mapInfo)
      ensures Known(old(mapInfo), mapAddr, addr) ==>
                var info := mapInfo[mapAddr[addr.addr]];
                info.fInTried && info.service == addr && info.nLastSuccess == info.nLastTry == info.nTime == nTime && info.nAttempts == 0
                && OthersAfterGood(old(mapInfo), mapInfo, mapAddr[addr.addr], evicted)
    {
      hide PlacesOk, AddrsOk, RandomOk, CountsOk, IdsOk, SizesOk, Slots, Buckets;
      var found, nId := Find(addr.addr);
      evicted := nId;
      if !found || mapInfo[nId].service != addr {
        return;
      }
      StatsAreOk(mapInfo, vvTried, vvNew, nId);
      SetStats(nId, mapInfo[nId].(nLastSuccess := nTime, nLastTry := nTime, nTime := nTime, nAttempts := 0));
      if mapInfo[nId].fInTried {
        return;
      }
      StatsAreOk(mapInfo, vvTried, vvNew, nId);
      BucketCount(vvTried, vvNew);
      var nUBucket := FindBucket(nId);
      evicted := MakeTried(nId, nUBucket);
    }

    /** Appends a fresh entry, which no bucket holds yet. */
    method Create(addr: CAddress, addrSource: CNetAddr) returns (nId: nat)
      modifies this`nIdCount, this`mapInfo, this`mapAddr, this`vRandom
      ensures nId == old(nIdCount) && nIdCount == nId + 1
      ensures mapInfo == old(mapInfo)[nId := Fresh(addr, addrSource, old(|vRandom|))]
      ensures mapAddr == old(mapAddr)[addr.service.addr := nId] && vRandom == old(vRandom) + [nId]
    {
      nId := nIdCount;
      nIdCount := nIdCount + 1;
      mapInfo := mapInfo[nId := Fresh(addr, addrSource, |vRandom|)];
      mapAddr := mapAddr[addr.service.addr := nId];
      vRandom := vRandom + [nId];
    }

    /** Creates an entry and counts it; its first bucket comes next. */
    method AddFresh(addr: CAddress, addrSource: CNetAddr, nTimePenalty: int) returns (nId: nat)
      requires Valid() && addr.service.addr !in mapAddr
      modifies this`nIdCount, this`mapInfo, this`mapAddr, this`vRandom, this`nNew
      ensures ValidBut({nId}) && CanJoin(mapInfo, vvTried, vvNew, nId) && nId !in old(mapInfo)
      ensures mapInfo == old(mapInfo)[nId := Fresh(addr, addrSource, old(|vRandom|)).(nTime := Penalised(addr.nTime, nTimePenalty))]
    {
      hide PlacesOk, AddrsOk, RandomOk, CountsOk, IdsOk, SizesOk, Slots, Buckets, EntryOk;
      ghost var a, places, names, count := mapInfo, vRandom, mapAddr, nNew;
      nId := Create(addr, addrSource);
      mapInfo := mapInfo[nId := mapInfo[nId].(nTime := Penalised(mapInfo[nId].nTime, nTimePenalty))];
      nNew := nNew + 1;
      assert mapInfo == a[nId := mapInfo[nId]];
      FreshKeeps(a, names, places, nId, nTried, count, mapInfo[nId]);
      FreshPlaces(a, vvTried, vvNew, nId, mapInfo[nId]);
    }

    /** Makes room in a full bucket for an entry that is about to join it. */
    method MakeRoom(nId: nat, nUBucket: nat) returns (ghost lost: nat)
      requires ValidBut({nId}) && Joining(mapInfo, vvTried, vvNew, nId)
      requires nUBucket < ADDRMAN_NEW_BUCKET_COUNT && nId !in vvNew[nUBucket]
      modifies this`mapInfo, this`mapAddr, this`vRandom, this`nNew, this`vvNew
      ensures ValidBut({nId}) && Joining(mapInfo, vvTried, vvNew, nId)
      ensures nId !in vvNew[nUBucket] && |vvNew[nUBucket]| < ADDRMAN_NEW_BUCKET_SIZE
      ensures if lost == nId then mapInfo == old(mapInfo)
              else OneRefLess(old(mapInfo), mapInfo, lost) && !old(mapInfo)[lost].fInTried
    {
      lost := nId;
      BucketFits(vvTried, vvNew, nUBucket);
      hide PlacesOk, AddrsOk, RandomOk, CountsOk, IdsOk, SizesOk, Slots, Buckets, EntryOk, OneRefLess, Joining;
      if |vvNew[nUBucket]| == ADDRMAN_NEW_BUCKET_SIZE {
        ghost var a, before, r, order, picks := mapInfo, vvNew, 0, [], {};
        r, lost, order, picks := ShrinkNew(nUBucket, {nId});
        HeldMeansNew(a, vvTried, before, nUBucket, lost, {nId});
        SmallerSet(before[nUBucket], lost);
        StillJoining(a, mapInfo, vvTried, before, nUBucket, lost, nId);
      }
    }

    /** Puts an entry into a new bucket, which loses another one when full. */
    method Join(nId: nat, nUBucket: nat) returns (ghost lost: nat)
      requires ValidBut({nId}) && CanJoin(mapInfo, vvTried, vvNew, nId) && nUBucket < ADDRMAN_NEW_BUCKET_COUNT
      modifies this`mapInfo, this`mapAddr, this`vRandom, this`nNew, this`vvNew
      ensures Valid() && nId in vvNew[nUBucket] && JoinedFrom(old(mapInfo), mapInfo, nId, lost)
      ensures mapInfo[nId].nRefCount == old(mapInfo)[nId].nRefCount + (if nId in old(vvNew)[nUBucket] then 0 else 1)
    {
      hide PlacesOk, AddrsOk, RandomOk, CountsOk, IdsOk, SizesOk, Slots, Buckets, EntryOk, JoinedFrom, Joining, OneRefLess, PlaceOk;
      lost := nId;
      ghost var a := mapInfo;
      BucketFits(vvTried, vvNew, nUBucket);
      if nId in vvNew[nUBucket] {
        AlreadyJoined(mapInfo, vvTried, vvNew, nUBucket, nId);
        return;
      }
      RefUp(mapInfo, mapAddr, vRandom, nIdCount, nTried, nNew, nId);
      RefUpPlaces(mapInfo, vvTried, vvNew, nId);
      hide CanJoin;
      mapInfo := mapInfo[nId := mapInfo[nId].(nRefCount := mapInfo[nId].nRefCount + 1)];
      lost := MakeRoom(nId, nUBucket);
      JoinDone(a, mapInfo, nId, lost);
      BucketFits(vvTried, vvNew, nUBucket);
      JoinKeeps(mapInfo, vvTried, vvNew, nUBucket, nId);
      vvNew := vvNew[nUBucket := vvNew[nUBucket] + {nId}];
    }

    /** Takes over a reported time when it is news. */
    method UpdateTime(nId: nat, nTime: int, nTimePenalty: int)
      requires Valid() && nId in mapInfo
      modifies this`mapInfo
      ensures Valid() && nId in mapInfo && mapInfo == old(mapInfo)[nId := old(mapInfo)[nId].(nTime := mapInfo[nId].nTime)]
      ensures Newer(old(mapInfo)[nId].nTime, mapInfo[nId].nTime, nTime, nTimePenalty)
    {
      StatsAreOk(mapInfo, vvTried, vvNew, nId);
      hide PlacesOk, AddrsOk, RandomOk, CountsOk, IdsOk, SizesOk, Slots, Buckets;
      var nNow: int := *; // GetAdjustedTime
      var fCurrentlyOnline := nNow - nTime < 24 * 60 * 60;
      var nUpdateInterval := if fCurrentlyOnline then 60 * 60 else 24 * 60 * 60;
      if nTime != 0 && (mapInfo[nId].nTime == 0 || mapInfo[nId].nTime < nTime - nUpdateInterval - nTimePenalty) {
        SetStats(nId, mapInfo[nId].(nTime := Penalised(nTime, nTimePenalty)));
      }
    }

    /** The stochastic test: with N references, one chance in 2^N. */
    method Lucky(nRefCount: nat) returns (lucky: bool)
      ensures nRefCount == 0 ==> lucky
    {
      var nFactor := 1;
      for n := 0 to nRefCount
        invariant nFactor >= 1 && (n == 0 ==> nFactor == 1)
      {
        nFactor := nFactor * 2;
      }
      var nRand: nat :| nRand < nFactor; // GetRandInt
      lucky := nFactor == 1 || nRand == 0;
    }

    /** Adds an address, or notes it once more. Routability and the chosen bucket are arbitrary. */
    method Add_(addr: CAddress, fRoutable: bool, source: CNetAddr, nTimePenalty: int) returns (fNew: bool, ghost lost: nat)
      requires Valid()
      modifies this`nIdCount, this`mapInfo, this`mapAddr, this`vRandom, this`nNew, this`vvNew
      ensures Valid() && (fNew <==> fRoutable && addr.service.addr !in old(mapAddr))
      ensures !fRoutable ==> mapInfo == old(mapInfo) && vvNew == old(vvNew) && mapAddr == old(mapAddr)
      ensures fRoutable ==>
                addr.service.addr in mapAddr && mapAddr[addr.service.addr] in mapInfo
                && OthersKept(old(mapInfo), mapInfo, mapAddr[addr.service.addr], lost)
      ensures fNew ==>
                var n := mapAddr[addr.service.addr];
                n !in old(mapInfo)
                && mapInfo[n] == Fresh(addr, source, mapInfo[n].nRandomPos).(nTime := Penalised(addr.nTime, nTimePenalty), nRefCount := 1)
      ensures fRoutable && !fNew ==>
                var n := mapAddr[addr.service.addr];
                n in old(mapInfo) && Refreshed(old(mapInfo)[n], mapInfo[n], addr.nTime, nTimePenalty)
    {
      fNew, lost := false, 0;
      if fRoutable {
        var found, nId := Find(addr.service.addr);
        if found {
          lost := AddKnown(nId, addr.nTime, nTimePenalty);
        } else {
          fNew := true;
          nId, lost := AddUnknown(addr, source, nTimePenalty);
        }
        AddrKnown(mapInfo, mapAddr, nId);
        hide *;
      }
    }

    method AddUnknown(addr: CAddress, source: CNetAddr, nTimePenalty: int) returns (nId: nat, ghost lost: nat)
      requires Valid() && addr.service.addr !in mapAddr
      modifies this`nIdCount, this`mapInfo, this`mapAddr, this`vRandom, this`nNew, this`vvNew
      ensures Valid() && nId !in old(mapInfo) && nId in mapInfo && OthersKept(old(mapInfo), mapInfo, nId, lost)
      ensures mapInfo[nId] == Fresh(addr, source, mapInfo[nId].nRandomPos).(nTime := Penalised(addr.nTime, nTimePenalty), nRefCount := 1)
    {
      hide PlacesOk, AddrsOk, RandomOk, CountsOk, IdsOk, SizesOk, Slots, JoinedFrom, OthersKept;
      ghost var a := mapInfo;
      nId := AddFresh(addr, source, nTimePenalty);
      var nUBucket: nat :| nUBucket < ADDRMAN_NEW_BUCKET_COUNT; // GetNewBucket
      BucketFits(vvTried, vvNew, nUBucket);
      if nId in vvNew[nUBucket] { BucketsMember(vvNew, nUBucket, nId); }
      ghost var mid := mapInfo;
      hide Buckets, CanJoin;
      lost := Join(nId, nUBucket);
      AddedFresh(a, mid, mapInfo, nId, lost, mid[nId]);
    }

    method AddKnown(nId: nat, nTime: int, nTimePenalty: int) returns (ghost lost: nat)
      requires Valid() && nId in mapInfo
      modifies this`mapInfo, this`mapAddr, this`vRandom, this`nNew, this`vvNew
      ensures Valid() && nId in mapInfo && OthersKept(old(mapInfo), mapInfo, nId, lost)
      ensures Refreshed(old(mapInfo)[nId], mapInfo[nId], nTime, nTimePenalty)
    {
      hide PlacesOk, AddrsOk, RandomOk, CountsOk, IdsOk, SizesOk, Slots, Buckets, EntryOk, PlaceOk, JoinedFrom;
      lost := nId;
      ghost var a := mapInfo;
      UpdateTime(nId, nTime, nTimePenalty);
      ghost var mid := mapInfo;
      var info := mapInfo[nId];
      if nTime == 0 || (info.nTime != 0 && nTime <= info.nTime) || info.fInTried || info.nRefCount == ADDRMAN_NEW_BUCKETS_PER_ADDRESS {
        return;
      }
      StatsAreOk(mapInfo, vvTried, vvNew, nId);
      var lucky := Lucky(info.nRefCount);
      if !lucky {
        return;
      }
      KnownCanJoin(mapInfo, vvTried, vvNew, nId);
      hide OthersKept, Refreshed, Newer, CanJoin;
      var nUBucket: nat :| nUBucket < ADDRMAN_NEW_BUCKET_COUNT; // GetNewBucket
      lost := Join(nId, nUBucket);
      AddedAgain(a, mid, mapInfo, nId, lost, nTime, nTimePenalty);
    }

    /** Draws one more address for a sample. */
    method Draw(n: nat, ghost vAddr: seq<CAddress>) returns (addr: CAddress)
      requires Valid() && Sample(mapInfo, vRandom, vAddr) && n == |vAddr| < |vRandom|
      modifies this`mapInfo, this`vRandom
      ensures Valid() && SameButPos(old(mapInfo), mapInfo) && |vRandom| == old(|vRandom|)
      ensures Sample(mapInfo, vRandom, vAddr + [addr])
    {
      hide PlacesOk, AddrsOk, RandomOk, CountsOk, IdsOk, SizesOk, Sample, SameButPos;
      var nRnd: nat :| nRnd < |vRandom| - n; // GetRandInt
      var nRndPos := nRnd + n;
      ghost var a, before := mapInfo, vRandom;
      SwapRandom(n, nRndPos);
      MovedSample(a, mapInfo, mapAddr, vvTried, vvNew, nTried, nNew, nIdCount);
      NextSample(a, mapInfo, before, vRandom, vAddr, n, nRndPos);
      addr := CAddress(mapInfo[vRandom[n]].service, mapInfo[vRandom[n]].nTime);
    }

    /** A random sample of the table: distinct addresses, as many as asked for. */
    method GetAddr_() returns (vAddr: seq<CAddress>)
      requires Valid()
      modifies this`mapInfo, this`vRandom
      ensures Valid() && SameButPos(old(mapInfo), mapInfo)
      ensures |vAddr| == Wanted(|old(mapInfo)|) <= |old(mapInfo)|
      ensures AllInTable(old(mapInfo), old(mapAddr), vAddr) && Distinct(vAddr)
    {
      hide PlacesOk, AddrsOk, RandomOk, CountsOk, IdsOk, SizesOk, SameButPos, Slots, Buckets, EntryOk, PlaceOk, AllInTable, Distinct, InTable;
      RandomSize(mapInfo, vRandom);
      ghost var size, a := |vRandom|, mapInfo;
      vAddr := [];
      var nNodes := ADDRMAN_GETADDR_MAX_PCT * |vRandom| / 100;
      if nNodes > ADDRMAN_GETADDR_MAX {
        nNodes := ADDRMAN_GETADDR_MAX;
      }
      NoSample(mapInfo, vRandom);
      assert nNodes == Wanted(size) <= size;
      hide Sample, Wanted;
      for n := 0 to nNodes
        invariant Valid() && SameButPos(a, mapInfo) && |vRandom| == size && mapAddr == old(mapAddr)
        invariant Sample(mapInfo, vRandom, vAddr) && |vAddr| == n
      {
        ghost var mid := mapInfo;
        var addr := Draw(n, vAddr);
        PosTwice(a, mid, mapInfo);
        vAddr := vAddr + [addr];
      }
      SampleIsDistinct(mapInfo, vRandom, mapAddr, vAddr);
      TableOnlyPos(a, mapInfo, mapAddr, vAddr);
    }

    /** Check_, first loop: tests every entry, and gathers tried ids and reference counts. */
    method CheckEntries() returns (r: int, setTried: set<nat>, mapNew: map<nat, int>)
      modifies this`mapAddr
      ensures r == 0 <==> EntriesTested(mapInfo, old(mapAddr), vRandom)
      ensures r == 0 ==> setTried == TriedIds(mapInfo) && mapNew == NewRefs(mapInfo)
      ensures (forall n | n in mapInfo :: mapInfo[n].service.addr in old(mapAddr)) ==> mapAddr == old(mapAddr)
    {
      hide EntryTested;
      r, setTried, mapNew := 0, {}, map[];
      var left := mapInfo.Keys;
      while left != {}
        invariant left <= mapInfo.Keys && SameLookups(old(mapAddr), mapAddr)
        invariant (forall n | n in mapInfo :: mapInfo[n].service.addr in old(mapAddr)) ==> mapAddr == old(mapAddr)
        invariant forall n | n in mapInfo && n !in left :: EntryTested(mapInfo[n], n, old(mapAddr), vRandom)
        invariant setTried == TriedIds(mapInfo) - left
        invariant mapNew == map n | n in NewIds(mapInfo) - left :: mapInfo[n].nRefCount
        decreases left
      {
        var n :| n in left;
        left := left - {n};
        SameTest(mapInfo[n], n, old(mapAddr), mapAddr, vRandom);
        r := CheckEntry(n);
        if r != 0 { return; }
        if mapInfo[n].fInTried {
          setTried := setTried + {n};
        } else {
          mapNew := mapNew[n := mapInfo[n].nRefCount];
        }
      }
    }

    /** The tests of one entry. A missing address is read, and thereby entered, as 0. */
    method CheckEntry(n: nat) returns (r: int)
      requires n in mapInfo
      modifies this`mapAddr
      ensures r == 0 <==> EntryTested(mapInfo[n], n, old(mapAddr), vRandom)
      ensures SameLookups(old(mapAddr), mapAddr) && (mapInfo[n].service.addr in old(mapAddr) ==> mapAddr == old(mapAddr))
    {
      var info := mapInfo[n];
      if info.fInTried {
        if info.nLastSuccess == 0 { return -1; }
        if info.nRefCount != 0 { return -2; }
      } else {
        if info.nRefCount < 0 || info.nRefCount > ADDRMAN_NEW_BUCKETS_PER_ADDRESS { return -3; }
        if info.nRefCount == 0 { return -4; }
      }
      if info.service.addr !in mapAddr { mapAddr := mapAddr[info.service.addr := 0]; }
      if mapAddr[info.service.addr] != n { return -5; }
      if info.nRandomPos >= |vRandom| || vRandom[info.nRandomPos] != n { return -14; }
      if info.nLastTry < 0 { return -6; }
      if info.nLastSuccess < 0 { return -8; }
      return 0;
    }

    /** Check_, second loop: ticks off the tried ids, slot by slot. */
    method CheckTried(tried: set<nat>) returns (r: int, setTried: set<nat>)
      ensures r == 0 ==> (setTried == {} <==> SlotsMatch(vvTried, tried))
      ensures r != 0 ==> !SlotsMatch(vvTried, tried)
    {
      hide Slots, SlotsMatch, SlotsSeen, TriedLeft;
      r, setTried := 0, tried;
      assert TriedLeftAfter(tried, setTried, vvTried[..0]) by { NoSlots(tried, vvTried); }
      hide TriedLeftAfter;
      for n := 0 to |vvTried|
        invariant TriedLeftAfter(tried, setTried, vvTried[..n])
      {
        StartBucket(tried, setTried, vvTried, n);
        for i := 0 to |vvTried[n]|
          invariant TriedLeft(tried, setTried, vvTried, n, i)
        {
          var it := vvTried[n][i];
          if it !in setTried {
            SlotTooMany(tried, setTried, vvTried, n, i);
            return -11, setTried;
          }
          TickSlot(tried, setTried, vvTried, n, i);
          setTried := setTried - {it};
        }
        FinishBucket(tried, setTried, vvTried, n);
      }
      assert vvTried[..|vvTried|] == vvTried;
      NothingLeft(tried, setTried, vvTried);
    }

    /** Check_, third loop: counts down the references, bucket by bucket. */
    method CheckNew(refs: map<nat, int>) returns (r: int, mapNew: map<nat, int>)
      requires forall n | n in refs :: refs[n] >= 1
      ensures r == 0 ==> (mapNew == map[] <==> BucketsMatch(vvNew, refs))
      ensures r != 0 ==> !BucketsMatch(vvNew, refs)
    {
      hide Buckets, BucketsMatch, BucketsSeen, NewLeft, Left;
      r, mapNew := 0, refs;
      assert NewLeftAfter(refs, mapNew, vvNew[..0]) by { NoBuckets(refs, vvNew); }
      hide NewLeftAfter;
      for n := 0 to |vvNew|
        invariant NewLeftAfter(refs, mapNew, vvNew[..n])
      {
        StartNew(refs, mapNew, vvNew, n);
        var unseen := vvNew[n];
        while unseen != {}
          invariant unseen <= vvNew[n] && NewLeft(refs, mapNew, vvNew, n, unseen)
          decreases unseen
        {
          var it :| it in unseen;
          if it !in mapNew {
            BucketTooMany(refs, mapNew, vvNew, n, unseen, it);
            return -12, mapNew;
          }
          TickNew(refs, mapNew, vvNew, n, unseen, it);
          mapNew := if mapNew[it] - 1 == 0 then mapNew - {it} else mapNew[it := mapNew[it] - 1];
          unseen := unseen - {it};
        }
        FinishNew(refs, mapNew, vvNew, n);
      }
      assert vvNew[..|vvNew|] == vvNew;
      NoRefsLeft(refs, mapNew, vvNew);
    }

    /** The self-check: 0 exactly when the tables are consistent, so always 0 between calls. */
    method Check_() returns (r: int)
      modifies this`mapAddr
      ensures r == 0 <==> old(Consistent(mapInfo, mapAddr, vRandom, nTried, nNew, vvTried, vvNew))
      ensures old(Valid()) ==> r == 0 && mapAddr == old(mapAddr)
    {
      hide Slots, Buckets, EntriesTested, SlotsMatch, BucketsMatch, PlacesOk, AddrsOk, RandomOk, SizesOk, IdsOk;
      if Valid() { InvariantIsConsistent(mapInfo, mapAddr, vRandom, nTried, nNew, vvTried, vvNew); }
      if |vRandom| != nTried + nNew { return -7; }
      var setTried, mapNew;
      r, setTried, mapNew := CheckEntries();
      if r != 0 { return; }
      NewRefsSize(mapInfo, old(mapAddr), vRandom);
      if |setTried| != nTried { return -9; }
      if |mapNew| != nNew { return -10; }
      r, setTried := CheckTried(setTried);
      if r != 0 { return; }
      r, mapNew := CheckNew(mapNew);
      if r != 0 { return; }
      if setTried != {} { return -13; }
      if mapNew != map[] { return -15; }
    }
  }
}
