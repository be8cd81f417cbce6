/** What adding an address does to the indexes (addrman.cpp, Add_ and Create). */
module AddrJoin {
  import opened AddrTables
  import opened AddrEffects

  /** What a peer tells about a node. */
  datatype CAddress = CAddress(service: CService, nTime: int)

  function Fresh(addr: CAddress, source: CNetAddr, nRandomPos: nat): CAddrInfo {
    CAddrInfo(addr.service, source, addr.nTime, 0, 0, 0, 0, false, nRandomPos)
  }

  /** A reported time, less a penalty. */
  function Penalised(nTime: int, nTimePenalty: int): nat {
    if nTime - nTimePenalty > 0 then nTime - nTimePenalty else 0
  }

  /** A new entry: its reported time, not below 0, and nothing tried yet. */
  lemma NewcomerIs(addr: CAddress, source: CNetAddr, nRandomPos: nat, nTimePenalty: int)
    ensures
      var e := Fresh(addr, source, nRandomPos).(nTime := Penalised(addr.nTime, nTimePenalty));
      && e.service == addr.service && e.source == source && e.nRandomPos == nRandomPos
      && e.nLastTry == 0 && e.nLastSuccess == 0 && e.nAttempts == 0 && e.nRefCount == 0 && !e.fInTried
      && (addr.nTime >= nTimePenalty ==> e.nTime == addr.nTime - nTimePenalty) && (addr.nTime <= nTimePenalty ==> e.nTime == 0)
  {
  }

  /** An entry's time stays or moves forward, and then by an hour at least unless it was unknown. */
  predicate Newer(before: int, after: int, nTime: int, nTimePenalty: int) {
    after == before || (after == Penalised(nTime, nTimePenalty) && nTime != 0 && (before == 0 || after > before + 3600))
  }

  /** An entry in as many new buckets as it counts, not yet in all it may be in. */
  ghost predicate CanJoin(a: Infos, vvTried: seq<seq<nat>>, vvNew: seq<set<nat>>, n: nat) {
    && n in a && !a[n].fInTried && a[n].nLastTry >= 0 && a[n].nLastSuccess >= 0 && Slots(vvTried, n) == 0
    && a[n].nRefCount == Buckets(vvNew, n) < ADDRMAN_NEW_BUCKETS_PER_ADDRESS
  }

  /** An entry that counts one bucket more than hold it. */
  ghost predicate Joining(a: Infos, vvTried: seq<seq<nat>>, vvNew: seq<set<nat>>, n: nat) {
    n in a && EntryOk(a[n], Slots(vvTried, n), Buckets(vvNew, n) + 1)
  }

  /** All entries but n and `lost` are as before, up to positions; `lost`, when it is not n,
      was a new one and has one reference less. */
  ghost predicate OthersKept(a: Infos, b: Infos, n: nat, lost: nat) {
    && (forall m | m in a && m != n && m != lost :: m in b && b[m] == a[m].(nRandomPos := b[m].nRandomPos))
    && b.Keys <= a.Keys + {n}
    && (lost != n ==> && lost in a && !a[lost].fInTried && (lost in b <==> a[lost].nRefCount > 1)
                      && (lost in b ==> b[lost] == a[lost].(nRefCount := a[lost].nRefCount - 1, nRandomPos := b[lost].nRandomPos)))
  }

  /** Entry n has joined at most one more bucket, and stays otherwise. */
  ghost predicate JoinedFrom(a: Infos, b: Infos, n: nat, lost: nat) {
    && n in a && n in b && b[n] == a[n].(nRefCount := b[n].nRefCount, nRandomPos := b[n].nRandomPos)
    && OthersKept(a, b, n, lost)
  }

  /** A known entry has at most a newer time and one more reference. */
  predicate Refreshed(a: CAddrInfo, b: CAddrInfo, nTime: int, nTimePenalty: int) {
    && b == a.(nTime := b.nTime, nRefCount := b.nRefCount, nRandomPos := b.nRandomPos)
    && Newer(a.nTime, b.nTime, nTime, nTimePenalty)
    && (b.nRefCount == a.nRefCount || (!a.fInTried && b.nRefCount == a.nRefCount + 1))
  }

  lemma FreshKeeps(a: Infos, mapAddr: map<CNetAddr, nat>, vRandom: seq<nat>, n: nat, nTried: int, nNew: int, info: CAddrInfo)
    requires AddrsOk(a, mapAddr) && RandomOk(a, vRandom) && CountsOk(a, nTried, nNew) && IdsOk(a, n)
    requires info.service.addr !in mapAddr && !info.fInTried && info.nRandomPos == |vRandom|
    ensures n !in a && AddrsOk(a[n := info], mapAddr[info.service.addr := n]) && RandomOk(a[n := info], vRandom + [n])
    ensures CountsOk(a[n := info], nTried, nNew + 1) && IdsOk(a[n := info], n + 1)
  {
    hide AddrsOk, RandomOk, CountsOk;
    FreshAddr(a, mapAddr, n, info);
    FreshRandom(a, vRandom, n, info);
    FreshCounts(a, nTried, nNew, n, info);
  }

  lemma FreshCounts(a: Infos, nTried: int, nNew: int, n: nat, info: CAddrInfo)
    requires CountsOk(a, nTried, nNew) && n !in a && !info.fInTried
    ensures CountsOk(a[n := info], nTried, nNew + 1)
  {
    assert NewIds(a[n := info]) == NewIds(a) + {n} && TriedIds(a[n := info]) == TriedIds(a);
  }

  lemma FreshAddr(a: Infos, mapAddr: map<CNetAddr, nat>, n: nat, info: CAddrInfo)
    requires AddrsOk(a, mapAddr) && n !in a && info.service.addr !in mapAddr
    ensures AddrsOk(a[n := info], mapAddr[info.service.addr := n])
  {
  }

  lemma FreshRandom(a: Infos, vRandom: seq<nat>, n: nat, info: CAddrInfo)
    requires RandomOk(a, vRandom) && n !in a && info.nRandomPos == |vRandom|
    ensures RandomOk(a[n := info], vRandom + [n])
  {
  }

  lemma FreshPlaces(a: Infos, vvTried: seq<seq<nat>>, vvNew: seq<set<nat>>, n: nat, info: CAddrInfo)
    requires PlacesOk(a, vvTried, vvNew, {}) && n !in a
    requires !info.fInTried && info.nRefCount == 0 && info.nLastTry == 0 && info.nLastSuccess == 0
    ensures PlacesOk(a[n := info], vvTried, vvNew, {n}) && CanJoin(a[n := info], vvTried, vvNew, n)
  {
    hide Slots, Buckets, EntryOk;
    var b := a[n := info];
    assert PlaceOk(a, vvTried, vvNew, n);
    forall m: nat | m != n ensures PlaceOk(b, vvTried, vvNew, m) {
      assert PlaceOk(a, vvTried, vvNew, m);
    }
  }

  lemma KnownCanJoin(a: Infos, vvTried: seq<seq<nat>>, vvNew: seq<set<nat>>, n: nat)
    requires PlacesOk(a, vvTried, vvNew, {}) && n in a && !a[n].fInTried && a[n].nRefCount != ADDRMAN_NEW_BUCKETS_PER_ADDRESS
    ensures PlacesOk(a, vvTried, vvNew, {n}) && CanJoin(a, vvTried, vvNew, n)
  {
    assert PlaceOk(a, vvTried, vvNew, n);
    hide Slots, Buckets;
  }

  lemma AlreadyJoined(a: Infos, vvTried: seq<seq<nat>>, vvNew: seq<set<nat>>, k: nat, n: nat)
    requires PlacesOk(a, vvTried, vvNew, {n}) && CanJoin(a, vvTried, vvNew, n) && k < |vvNew| && n in vvNew[k]
    ensures PlacesOk(a, vvTried, vvNew, {}) && JoinedFrom(a, a, n, n)
  {
    BucketsMember(vvNew, k, n);
    hide Slots, Buckets;
    forall m: nat ensures PlaceOk(a, vvTried, vvNew, m) {
      assert m != n ==> PlaceOk(a, vvTried, vvNew, m);
    }
  }

  /** Counting a bucket ahead matters to no index, and not to the places of the others. */
  lemma RefUp(a: Infos, mapAddr: map<CNetAddr, nat>, vRandom: seq<nat>, nIdCount: nat, nTried: int, nNew: int, n: nat)
    requires n in a
    ensures
      var b := a[n := a[n].(nRefCount := a[n].nRefCount + 1)];
      && (AddrsOk(a, mapAddr) ==> AddrsOk(b, mapAddr)) && (RandomOk(a, vRandom) ==> RandomOk(b, vRandom)) && (IdsOk(a, nIdCount) ==> IdsOk(b, nIdCount))
      && (CountsOk(a, nTried, nNew) ==> CountsOk(b, nTried, nNew))
  {
    var b := a[n := a[n].(nRefCount := a[n].nRefCount + 1)];
    SameIndexes(a, b, mapAddr, vRandom, nIdCount);
    hide AddrsOk, RandomOk, IdsOk;
    assert TriedIds(b) == TriedIds(a) && NewIds(b) == NewIds(a);
  }

  lemma RefUpPlaces(a: Infos, vvTried: seq<seq<nat>>, vvNew: seq<set<nat>>, n: nat)
    requires PlacesOk(a, vvTried, vvNew, {n}) && CanJoin(a, vvTried, vvNew, n)
    ensures
      var b := a[n := a[n].(nRefCount := a[n].nRefCount + 1)];
      PlacesOk(b, vvTried, vvNew, {n}) && Joining(b, vvTried, vvNew, n)
  {
    var b := a[n := a[n].(nRefCount := a[n].nRefCount + 1)];
    hide Slots, Buckets;
    forall m: nat | m != n ensures PlaceOk(b, vvTried, vvNew, m) {
      assert PlaceOk(a, vvTried, vvNew, m);
    }
  }

  /** A bucket loses another id while n waits to join. */
  lemma StillJoining(a: Infos, b: Infos, vvTried: seq<seq<nat>>, vvNew: seq<set<nat>>, k: nat, lost: nat, n: nat)
    requires k < |vvNew| && lost != n && Joining(a, vvTried, vvNew, n) && OneRefLess(a, b, lost)
    ensures Joining(b, vvTried, vvNew[k := vvNew[k] - {lost}], n)
  {
    BucketsUpdate(vvNew, k, vvNew[k] - {lost}, n);
    hide Slots, Buckets;
  }

  lemma BucketFits(vvTried: seq<seq<nat>>, vvNew: seq<set<nat>>, k: nat)
    requires SizesOk(vvTried, vvNew) && k < ADDRMAN_NEW_BUCKET_COUNT
    ensures k < |vvNew| && |vvNew[k]| <= ADDRMAN_NEW_BUCKET_SIZE
  {
  }

  lemma JoinKeeps(a: Infos, vvTried: seq<seq<nat>>, vvNew: seq<set<nat>>, k: nat, n: nat)
    requires PlacesOk(a, vvTried, vvNew, {n}) && SizesOk(vvTried, vvNew) && Joining(a, vvTried, vvNew, n)
    requires k < |vvNew| && n !in vvNew[k] && |vvNew[k]| < ADDRMAN_NEW_BUCKET_SIZE
    ensures PlacesOk(a, vvTried, vvNew[k := vvNew[k] + {n}], {}) && SizesOk(vvTried, vvNew[k := vvNew[k] + {n}])
  {
    JoinBucket(a, vvTried, vvNew, k, n);
    hide PlacesOk, Slots, Buckets, EntryOk;
  }

  lemma JoinDone(a: Infos, b: Infos, n: nat, lost: nat)
    requires n in a
    requires
      var raised := a[n := a[n].(nRefCount := a[n].nRefCount + 1)];
      if lost == n then b == raised else OneRefLess(raised, b, lost) && !a[lost].fInTried
    ensures JoinedFrom(a, b, n, lost) && b[n].nRefCount == a[n].nRefCount + 1
  {
  }

  lemma AddrKnown(a: Infos, mapAddr: map<CNetAddr, nat>, n: nat)
    requires AddrsOk(a, mapAddr) && n in a
    ensures a[n].service.addr in mapAddr && mapAddr[a[n].service.addr] == n
  {
  }

  /** The whole of an Add_ that meets a new address. */
  lemma AddedFresh(a: Infos, mid: Infos, b: Infos, n: nat, lost: nat, info: CAddrInfo)
    requires n !in a && mid == a[n := info] && info.nRefCount == 0 && JoinedFrom(mid, b, n, lost) && b[n].nRefCount == 1
    ensures n in b && b[n] == info.(nRandomPos := b[n].nRandomPos, nRefCount := 1) && OthersKept(a, b, n, lost)
  {
  }

  /** The whole of an Add_ that notes a known address once more. */
  lemma AddedAgain(a: Infos, mid: Infos, b: Infos, n: nat, lost: nat, nTime: int, nTimePenalty: int)
    requires n in a && n in mid && mid == a[n := a[n].(nTime := mid[n].nTime)] && Newer(a[n].nTime, mid[n].nTime, nTime, nTimePenalty)
    requires !a[n].fInTried && JoinedFrom(mid, b, n, lost) && mid[n].nRefCount <= b[n].nRefCount <= mid[n].nRefCount + 1
    ensures n in b && Refreshed(a[n], b[n], nTime, nTimePenalty) && OthersKept(a, b, n, lost)
  {
  }
}
