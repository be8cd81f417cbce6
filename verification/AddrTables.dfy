/** The indexes of the address manager as values, and what keeps them consistent
    (addrman.h, CAddrMan; addrman.cpp, Check_). */
module AddrTables {
  const ADDRMAN_TRIED_BUCKET_COUNT := 64
  const ADDRMAN_TRIED_BUCKET_SIZE := 64
  const ADDRMAN_NEW_BUCKET_COUNT := 256
  const ADDRMAN_NEW_BUCKET_SIZE := 64
  const ADDRMAN_NEW_BUCKETS_PER_ADDRESS := 4
  const ADDRMAN_TRIED_ENTRIES_INSPECT_ON_EVICT := 4
  const ADDRMAN_HORIZON_DAYS := 30
  const ADDRMAN_RETRIES := 3
  const ADDRMAN_MAX_FAILURES := 10
  const ADDRMAN_MIN_FAIL_DAYS := 7
  const ADDRMAN_GETADDR_MAX_PCT := 23
  const ADDRMAN_GETADDR_MAX := 2500

  datatype CNetAddr = CNetAddr(ip: nat)

  datatype CService = CService(addr: CNetAddr, port: nat)

  datatype CAddrInfo = CAddrInfo(service: CService, source: CNetAddr, nTime: int, nLastTry: int, nLastSuccess: int,
                                 nAttempts: nat, nRefCount: int, fInTried: bool, nRandomPos: nat)
  {
    /** Bad enough to be dropped. */
    predicate IsTerrible(nNow: int) {
      !(nLastTry != 0 && nLastTry >= nNow - 60)
      && (|| nTime > nNow + 10 * 60
          || nTime == 0 || nNow - nTime > ADDRMAN_HORIZON_DAYS * 86400
          || (nLastSuccess == 0 && nAttempts >= ADDRMAN_RETRIES)
          || (nNow - nLastSuccess > ADDRMAN_MIN_FAIL_DAYS * 86400 && nAttempts >= ADDRMAN_MAX_FAILURES))
    }
  }

  type Infos = map<nat, CAddrInfo>

  /** Nothing tried in the last minute is dropped. Else these reasons are enough: a time of 0, more
      than 10 minutes ahead or more than 30 days ago; three attempts without any success; ten
      without one in 7 days. */
  lemma TerribleMeans(e: CAddrInfo, nNow: int)
    ensures e.nLastTry != 0 && nNow - e.nLastTry <= 60 ==> !e.IsTerrible(nNow)
    ensures (e.nLastTry == 0 || nNow - e.nLastTry > 60) && (e.nTime == 0 || e.nTime - nNow > 600 || nNow - e.nTime > 2592000) ==> e.IsTerrible(nNow)
    ensures (e.nLastTry == 0 || nNow - e.nLastTry > 60) && e.nLastSuccess == 0 && e.nAttempts >= 3 ==> e.IsTerrible(nNow)
    ensures (e.nLastTry == 0 || nNow - e.nLastTry > 60) && nNow - e.nLastSuccess > 604800 && e.nAttempts >= 10 ==> e.IsTerrible(nNow)
    ensures e.nTime != 0 && -600 <= nNow - e.nTime <= 2592000 && e.nAttempts < 3 ==> !e.IsTerrible(nNow)
    ensures e.nTime != 0 && -600 <= nNow - e.nTime <= 2592000 && e.nLastSuccess != 0 && (e.nAttempts < 10 || nNow - e.nLastSuccess <= 604800) ==> !e.IsTerrible(nNow)
  {
  }

  // ---------- membership counts ----------

  /** How many "new" buckets hold an id. */
  function Buckets(vvNew: seq<set<nat>>, n: nat): nat {
    if vvNew == [] then 0 else Buckets(vvNew[..|vvNew| - 1], n) + (if n in vvNew[|vvNew| - 1] then 1 else 0)
  }

  /** How many "tried" slots hold an id. */
  function Slots(vvTried: seq<seq<nat>>, n: nat): nat {
    if vvTried == [] then 0 else Slots(vvTried[..|vvTried| - 1], n) + multiset(vvTried[|vvTried| - 1])[n]
  }

  lemma {:induction false} BucketsUpdate(vvNew: seq<set<nat>>, b: nat, s: set<nat>, n: nat)
    requires b < |vvNew|
    ensures Buckets(vvNew[b := s], n) == Buckets(vvNew, n) - (if n in vvNew[b] then 1 else 0) + (if n in s then 1 else 0)
  {
    var k := |vvNew| - 1;
    if b == k {
      assert vvNew[b := s][..k] == vvNew[..k];
    } else {
      assert vvNew[b := s][..k] == vvNew[..k][b := s];
      BucketsUpdate(vvNew[..k], b, s, n);
    }
  }

  lemma {:induction false} SlotsUpdate(vvTried: seq<seq<nat>>, b: nat, s: seq<nat>, n: nat)
    requires b < |vvTried|
    ensures Slots(vvTried[b := s], n) == Slots(vvTried, n) - multiset(vvTried[b])[n] + multiset(s)[n]
  {
    var k := |vvTried| - 1;
    if b == k {
      assert vvTried[b := s][..k] == vvTried[..k];
    } else {
      assert vvTried[b := s][..k] == vvTried[..k][b := s];
      SlotsUpdate(vvTried[..k], b, s, n);
    }
  }

  lemma {:induction false} BucketsMember(vvNew: seq<set<nat>>, b: nat, n: nat)
    requires b < |vvNew| && n in vvNew[b]
    ensures Buckets(vvNew, n) >= 1
  {
    if b < |vvNew| - 1 { BucketsMember(vvNew[..|vvNew| - 1], b, n); }
  }

  lemma {:induction false} SlotsMember(vvTried: seq<seq<nat>>, b: nat, i: nat)
    requires b < |vvTried| && i < |vvTried[b]|
    ensures Slots(vvTried, vvTried[b][i]) >= 1
  {
    if b < |vvTried| - 1 {
      SlotsMember(vvTried[..|vvTried| - 1], b, i);
    } else {
      assert vvTried[b][i] in multiset(vvTried[b]);
    }
  }

  lemma {:induction false} SomeBucket(vvNew: seq<set<nat>>, n: nat) returns (b: nat)
    requires Buckets(vvNew, n) >= 1
    ensures b < |vvNew| && n in vvNew[b]
  {
    b := |vvNew| - 1;
    if n !in vvNew[b] { b := SomeBucket(vvNew[..b], n); }
  }

  lemma {:induction false} NoBucket(vvNew: seq<set<nat>>, n: nat)
    requires forall b | 0 <= b < |vvNew| :: n !in vvNew[b]
    ensures Buckets(vvNew, n) == 0
  {
    if vvNew != [] { NoBucket(vvNew[..|vvNew| - 1], n); }
  }

  lemma {:induction false} NoSlot(vvTried: seq<seq<nat>>, n: nat)
    requires forall b | 0 <= b < |vvTried| :: n !in vvTried[b]
    ensures Slots(vvTried, n) == 0
  {
    if vvTried != [] {
      assert n !in multiset(vvTried[|vvTried| - 1]);
      NoSlot(vvTried[..|vvTried| - 1], n);
    }
  }

  // ---------- the invariant, part by part ----------

  /** An entry is in exactly one tried slot, or in as many new buckets as it counts, 1 to 4. */
  predicate EntryOk(info: CAddrInfo, slots: nat, buckets: nat) {
    && info.nLastTry >= 0 && info.nLastSuccess >= 0
    && if info.fInTried then info.nRefCount == 0 && slots == 1 && buckets == 0 && info.nLastSuccess > 0
       else slots == 0 && info.nRefCount == buckets && 1 <= buckets <= ADDRMAN_NEW_BUCKETS_PER_ADDRESS
  }

  ghost predicate PlaceOk(mapInfo: Infos, vvTried: seq<seq<nat>>, vvNew: seq<set<nat>>, n: nat) {
    if n in mapInfo then EntryOk(mapInfo[n], Slots(vvTried, n), Buckets(vvNew, n)) else Slots(vvTried, n) == 0 && Buckets(vvNew, n) == 0
  }

  /** All ids but those in `skip` are where they should be. */
  ghost predicate PlacesOk(mapInfo: Infos, vvTried: seq<seq<nat>>, vvNew: seq<set<nat>>, skip: set<nat>) {
    forall n: nat | n !in skip :: PlaceOk(mapInfo, vvTried, vvNew, n)
  }

  ghost predicate SizesOk(vvTried: seq<seq<nat>>, vvNew: seq<set<nat>>) {
    && |vvTried| == ADDRMAN_TRIED_BUCKET_COUNT && |vvNew| == ADDRMAN_NEW_BUCKET_COUNT
    && (forall b | 0 <= b < |vvTried| :: |vvTried[b]| <= ADDRMAN_TRIED_BUCKET_SIZE)
    && (forall b | 0 <= b < |vvNew| :: |vvNew[b]| <= ADDRMAN_NEW_BUCKET_SIZE)
  }

  /** mapAddr and mapInfo agree. */
  ghost predicate AddrsOk(mapInfo: Infos, mapAddr: map<CNetAddr, nat>) {
    && (forall n | n in mapInfo :: mapInfo[n].service.addr in mapAddr && mapAddr[mapInfo[n].service.addr] == n)
    && (forall a | a in mapAddr :: mapAddr[a] in mapInfo && mapInfo[mapAddr[a]].service.addr == a)
  }

  /** vRandom and nRandomPos are inverse to each other. */
  ghost predicate RandomOk(mapInfo: Infos, vRandom: seq<nat>) {
    && (forall n | n in mapInfo :: mapInfo[n].nRandomPos < |vRandom| && vRandom[mapInfo[n].nRandomPos] == n)
    && (forall i | 0 <= i < |vRandom| :: vRandom[i] in mapInfo && mapInfo[vRandom[i]].nRandomPos == i)
  }

  ghost function TriedIds(mapInfo: Infos): set<nat> {
    set n | n in mapInfo && mapInfo[n].fInTried
  }

  ghost function NewIds(mapInfo: Infos): set<nat> {
    set n | n in mapInfo && !mapInfo[n].fInTried
  }

  ghost predicate CountsOk(mapInfo: Infos, nTried: int, nNew: int) {
    nTried == |TriedIds(mapInfo)| && nNew == |NewIds(mapInfo)|
  }

  lemma CountsPartition(mapInfo: Infos)
    ensures |TriedIds(mapInfo)| + |NewIds(mapInfo)| == |mapInfo|
  {
    assert TriedIds(mapInfo) + NewIds(mapInfo) == mapInfo.Keys && TriedIds(mapInfo) !! NewIds(mapInfo);
  }

  /** An inverse pair lists each id once. */
  lemma RandomSize(mapInfo: Infos, vRandom: seq<nat>)
    requires RandomOk(mapInfo, vRandom)
    ensures |vRandom| == |mapInfo|
  {
    var s := set i | 0 <= i < |vRandom| :: vRandom[i];
    assert s == mapInfo.Keys by {
      forall n | n in mapInfo ensures n in s { assert vRandom[mapInfo[n].nRandomPos] == n; }
    }
    DistinctSize(vRandom, s);
  }

  lemma {:induction false} DistinctSize(v: seq<nat>, s: set<nat>)
    requires (forall i, j | 0 <= i < j < |v| :: v[i] != v[j]) && s == set i | 0 <= i < |v| :: v[i]
    ensures |s| == |v|
  {
    if v != [] {
      var k := |v| - 1;
      var t := set i | 0 <= i < k :: v[..k][i];
      assert s == t + {v[k]} by {
        forall x | x in s ensures x in t + {v[k]} {
          var i :| 0 <= i < |v| && v[i] == x;
          if i < k { assert v[..k][i] == x; }
        }
      }
      assert v[k] !in t;
      DistinctSize(v[..k], t);
    }
  }
}
