/** What the address manager's self-check decides (addrman.cpp, Check_). */
module AddrCheck {
  import opened AddrTables

  /** std::map's operator[]: a missing address reads as 0. */
  function Lookup(mapAddr: map<CNetAddr, nat>, addr: CNetAddr): nat {
    if addr in mapAddr then mapAddr[addr] else 0
  }

  function Left(m: map<nat, int>, n: nat): int {
    if n in m then m[n] else 0
  }

  /** One entry agrees with both indexes and with itself. */
  predicate EntryTested(info: CAddrInfo, n: nat, mapAddr: map<CNetAddr, nat>, vRandom: seq<nat>) {
    && (if info.fInTried then info.nLastSuccess != 0 && info.nRefCount == 0 else 1 <= info.nRefCount <= ADDRMAN_NEW_BUCKETS_PER_ADDRESS)
    && Lookup(mapAddr, info.service.addr) == n && info.nRandomPos < |vRandom| && vRandom[info.nRandomPos] == n
    && info.nLastTry >= 0 && info.nLastSuccess >= 0
  }

  ghost predicate EntriesTested(mapInfo: Infos, mapAddr: map<CNetAddr, nat>, vRandom: seq<nat>) {
    forall n | n in mapInfo :: EntryTested(mapInfo[n], n, mapAddr, vRandom)
  }

  /** The tried ids, and the new ids with their reference counts. */
  ghost function NewRefs(mapInfo: Infos): map<nat, int> {
    map n | n in NewIds(mapInfo) :: mapInfo[n].nRefCount
  }

  ghost predicate SlotsMatch(vvTried: seq<seq<nat>>, tried: set<nat>) {
    forall n: nat :: Slots(vvTried, n) == if n in tried then 1 else 0
  }

  ghost predicate BucketsMatch(vvNew: seq<set<nat>>, refs: map<nat, int>) {
    forall n: nat :: Buckets(vvNew, n) == Left(refs, n)
  }

  /** What Check_ looks at: everything between calls but the sizes of buckets and addresses
      that lead to no entry. */
  ghost predicate Consistent(mapInfo: Infos, mapAddr: map<CNetAddr, nat>, vRandom: seq<nat>, nTried: int, nNew: int, vvTried: seq<seq<nat>>, vvNew: seq<set<nat>>) {
    && |vRandom| == nTried + nNew && CountsOk(mapInfo, nTried, nNew) && EntriesTested(mapInfo, mapAddr, vRandom)
    && SlotsMatch(vvTried, TriedIds(mapInfo)) && BucketsMatch(vvNew, NewRefs(mapInfo))
  }

  /** The invariant passes. */
  lemma InvariantIsConsistent(mapInfo: Infos, mapAddr: map<CNetAddr, nat>, vRandom: seq<nat>, nTried: int, nNew: int, vvTried: seq<seq<nat>>, vvNew: seq<set<nat>>)
    requires PlacesOk(mapInfo, vvTried, vvNew, {}) && AddrsOk(mapInfo, mapAddr) && RandomOk(mapInfo, vRandom) && CountsOk(mapInfo, nTried, nNew)
    ensures Consistent(mapInfo, mapAddr, vRandom, nTried, nNew, vvTried, vvNew)
    ensures forall n | n in mapInfo :: mapInfo[n].service.addr in mapAddr
  {
    CountsPartition(mapInfo);
    RandomSize(mapInfo, vRandom);
    hide Slots, Buckets;
    forall n | n in mapInfo ensures EntryTested(mapInfo[n], n, mapAddr, vRandom) {
      assert PlaceOk(mapInfo, vvTried, vvNew, n);
    }
    forall n: nat ensures Slots(vvTried, n) == (if n in TriedIds(mapInfo) then 1 else 0) && Buckets(vvNew, n) == Left(NewRefs(mapInfo), n) {
      assert PlaceOk(mapInfo, vvTried, vvNew, n);
    }
  }

  /** And what passes has its entries in place, and vRandom inverse to nRandomPos. */
  lemma ConsistentMeansPlaced(mapInfo: Infos, mapAddr: map<CNetAddr, nat>, vRandom: seq<nat>, nTried: int, nNew: int, vvTried: seq<seq<nat>>, vvNew: seq<set<nat>>)
    requires Consistent(mapInfo, mapAddr, vRandom, nTried, nNew, vvTried, vvNew)
    ensures PlacesOk(mapInfo, vvTried, vvNew, {}) && RandomOk(mapInfo, vRandom)
  {
    hide Slots, Buckets;
    forall n: nat ensures PlaceOk(mapInfo, vvTried, vvNew, n) {
      assert n in mapInfo ==> EntryTested(mapInfo[n], n, mapAddr, vRandom);
      assert Slots(vvTried, n) == if n in TriedIds(mapInfo) then 1 else 0;
      assert Buckets(vvNew, n) == Left(NewRefs(mapInfo), n);
    }
    CountsPartition(mapInfo);
    var positions := set n | n in mapInfo :: mapInfo[n].nRandomPos;
    assert mapInfo.Keys == set n | n in mapInfo.Keys :: n;
    ImageSize(mapInfo, mapInfo.Keys);
    forall i | 0 <= i < |vRandom| ensures vRandom[i] in mapInfo && mapInfo[vRandom[i]].nRandomPos == i {
      Pigeons(positions, |vRandom|, i);
    }
  }

  /** Distinct positions: as many as ids. */
  lemma {:induction false} ImageSize(mapInfo: Infos, ids: set<nat>)
    requires ids <= mapInfo.Keys && forall n, m | n in mapInfo && m in mapInfo && n != m :: mapInfo[n].nRandomPos != mapInfo[m].nRandomPos
    ensures |set n | n in ids :: mapInfo[n].nRandomPos| == |ids|
  {
    var image := set n | n in ids :: mapInfo[n].nRandomPos;
    if ids != {} {
      var n :| n in ids;
      var rest := set m | m in ids - {n} :: mapInfo[m].nRandomPos;
      assert image == rest + {mapInfo[n].nRandomPos};
      ImageSize(mapInfo, ids - {n});
    } else {
      assert image == {};
    }
  }

  /** A set of k numbers below k holds each of them. */
  lemma Pigeons(s: set<nat>, k: nat, i: nat)
    requires |s| == k && (forall x | x in s :: x < k) && i < k
    ensures i in s
  {
    if i !in s {
      AtMost(s + {i}, k);
    }
  }

  lemma {:induction false} AtMost(s: set<nat>, k: nat)
    requires forall x | x in s :: x < k
    ensures |s| <= k
  {
    if k == 0 {
      assert s == {};
    } else {
      AtMost(s - {k - 1}, k - 1);
      if k - 1 in s { assert s == s - {k - 1} + {k - 1}; } else { assert s == s - {k - 1}; }
    }
  }

  // ---------- the counting loops ----------

  /** How often n was met in the first b tried buckets and the first i slots of the next. */
  ghost function SlotsSeen(vvTried: seq<seq<nat>>, b: nat, i: nat, n: nat): nat
    requires b < |vvTried| && i <= |vvTried[b]|
  {
    Slots(vvTried[..b], n) + multiset(vvTried[b][..i])[n]
  }

  /** The ids not yet ticked off. */
  ghost predicate TriedLeft(tried: set<nat>, left: set<nat>, vvTried: seq<seq<nat>>, b: nat, i: nat)
    requires b < |vvTried| && i <= |vvTried[b]|
  {
    forall n: nat :: (if n in tried then 1 else 0) == (if n in left then 1 else 0) + SlotsSeen(vvTried, b, i, n)
  }

  ghost predicate TriedLeftAfter(tried: set<nat>, left: set<nat>, done: seq<seq<nat>>) {
    forall n: nat :: (if n in tried then 1 else 0) == (if n in left then 1 else 0) + Slots(done, n)
  }

  lemma StartBucket(tried: set<nat>, left: set<nat>, vvTried: seq<seq<nat>>, b: nat)
    requires b < |vvTried| && TriedLeftAfter(tried, left, vvTried[..b])
    ensures TriedLeft(tried, left, vvTried, b, 0)
  {
    hide Slots;
    assert vvTried[b][..0] == [];
    forall n: nat ensures (if n in tried then 1 else 0) == (if n in left then 1 else 0) + SlotsSeen(vvTried, b, 0, n) {
      assert (if n in tried then 1 else 0) == (if n in left then 1 else 0) + Slots(vvTried[..b], n);
    }
  }

  lemma FinishBucket(tried: set<nat>, left: set<nat>, vvTried: seq<seq<nat>>, b: nat)
    requires b < |vvTried| && TriedLeft(tried, left, vvTried, b, |vvTried[b]|)
    ensures TriedLeftAfter(tried, left, vvTried[..b + 1])
  {
    assert vvTried[..b + 1][..b] == vvTried[..b] && vvTried[b][..|vvTried[b]|] == vvTried[b];
    forall n: nat ensures (if n in tried then 1 else 0) == (if n in left then 1 else 0) + Slots(vvTried[..b + 1], n) {
      assert (if n in tried then 1 else 0) == (if n in left then 1 else 0) + SlotsSeen(vvTried, b, |vvTried[b]|, n);
    }
  }

  lemma TickSlot(tried: set<nat>, left: set<nat>, vvTried: seq<seq<nat>>, b: nat, i: nat)
    requires b < |vvTried| && i < |vvTried[b]| && TriedLeft(tried, left, vvTried, b, i) && vvTried[b][i] in left
    ensures TriedLeft(tried, left - {vvTried[b][i]}, vvTried, b, i + 1)
  {
    hide Slots;
    var after := left - {vvTried[b][i]};
    forall n: nat ensures (if n in tried then 1 else 0) == (if n in after then 1 else 0) + SlotsSeen(vvTried, b, i + 1, n) {
      SeenOneMore(vvTried, b, i, n);
      assert (if n in tried then 1 else 0) == (if n in left then 1 else 0) + SlotsSeen(vvTried, b, i, n);
    }
  }

  lemma SeenOneMore(vvTried: seq<seq<nat>>, b: nat, i: nat, n: nat)
    requires b < |vvTried| && i < |vvTried[b]|
    ensures SlotsSeen(vvTried, b, i + 1, n) == SlotsSeen(vvTried, b, i, n) + if vvTried[b][i] == n then 1 else 0
  {
    hide Slots;
    assert vvTried[b][..i + 1] == vvTried[b][..i] + [vvTried[b][i]];
  }

  /** A slot whose id was not left holds too many. */
  lemma SlotTooMany(tried: set<nat>, left: set<nat>, vvTried: seq<seq<nat>>, b: nat, i: nat)
    requires b < |vvTried| && i < |vvTried[b]| && TriedLeft(tried, left, vvTried, b, i) && vvTried[b][i] !in left
    ensures !SlotsMatch(vvTried, tried)
  {
    var n := vvTried[b][i];
    SeenOneMore(vvTried, b, i, n);
    SeenAtMost(vvTried, b, i + 1, n);
    hide Slots;
    assert (if n in tried then 1 else 0) == (if n in left then 1 else 0) + SlotsSeen(vvTried, b, i, n);
  }

  lemma {:induction false} SeenAtMost(vvTried: seq<seq<nat>>, b: nat, i: nat, n: nat)
    requires b < |vvTried| && i <= |vvTried[b]|
    ensures SlotsSeen(vvTried, b, i, n) <= Slots(vvTried, n)
  {
    var k := |vvTried| - 1;
    if b < k {
      assert vvTried[..k][..b] == vvTried[..b];
      SeenAtMost(vvTried[..k], b, i, n);
    } else {
      assert vvTried[b] == vvTried[b][..i] + vvTried[b][i..];
    }
  }

  /** How often n was met in the first b new buckets and in the seen part of the next. */
  ghost function BucketsSeen(vvNew: seq<set<nat>>, b: nat, unseen: set<nat>, n: nat): nat
    requires b < |vvNew|
  {
    Buckets(vvNew[..b], n) + if n in vvNew[b] && n !in unseen then 1 else 0
  }

  ghost predicate NewLeft(refs: map<nat, int>, left: map<nat, int>, vvNew: seq<set<nat>>, b: nat, unseen: set<nat>)
    requires b < |vvNew|
  {
    && (forall n | n in left :: left[n] >= 1)
    && (forall n: nat :: Left(refs, n) == Left(left, n) + BucketsSeen(vvNew, b, unseen, n))
  }

  ghost predicate NewLeftAfter(refs: map<nat, int>, left: map<nat, int>, done: seq<set<nat>>) {
    && (forall n | n in left :: left[n] >= 1)
    && (forall n: nat :: Left(refs, n) == Left(left, n) + Buckets(done, n))
  }

  lemma StartNew(refs: map<nat, int>, left: map<nat, int>, vvNew: seq<set<nat>>, b: nat)
    requires b < |vvNew| && NewLeftAfter(refs, left, vvNew[..b])
    ensures NewLeft(refs, left, vvNew, b, vvNew[b])
  {
    hide Buckets;
    forall n: nat ensures Left(refs, n) == Left(left, n) + BucketsSeen(vvNew, b, vvNew[b], n) {
      assert Left(refs, n) == Left(left, n) + Buckets(vvNew[..b], n);
    }
  }

  lemma FinishNew(refs: map<nat, int>, left: map<nat, int>, vvNew: seq<set<nat>>, b: nat)
    requires b < |vvNew| && NewLeft(refs, left, vvNew, b, {})
    ensures NewLeftAfter(refs, left, vvNew[..b + 1])
  {
    var done := vvNew[..b + 1];
    assert done[..b] == vvNew[..b];
    forall n: nat ensures Left(refs, n) == Left(left, n) + Buckets(done, n) {
      assert Left(refs, n) == Left(left, n) + BucketsSeen(vvNew, b, {}, n);
    }
  }

  /** One reference ticked off; the last one takes the id along. */
  function Ticked(left: map<nat, int>, n: nat): map<nat, int>
    requires n in left
  {
    if left[n] == 1 then left - {n} else left[n := left[n] - 1]
  }

  lemma TickNew(refs: map<nat, int>, left: map<nat, int>, vvNew: seq<set<nat>>, b: nat, unseen: set<nat>, it: nat)
    requires b < |vvNew| && NewLeft(refs, left, vvNew, b, unseen) && it in unseen && it in vvNew[b] && it in left
    ensures NewLeft(refs, Ticked(left, it), vvNew, b, unseen - {it})
  {
    hide Buckets;
    var after, rest := Ticked(left, it), unseen - {it};
    forall n: nat ensures Left(refs, n) == Left(after, n) + BucketsSeen(vvNew, b, rest, n) {
      assert Left(refs, n) == Left(left, n) + BucketsSeen(vvNew, b, unseen, n);
    }
  }

  lemma BucketTooMany(refs: map<nat, int>, left: map<nat, int>, vvNew: seq<set<nat>>, b: nat, unseen: set<nat>, it: nat)
    requires b < |vvNew| && NewLeft(refs, left, vvNew, b, unseen) && it in unseen && it in vvNew[b] && it !in left
    ensures !BucketsMatch(vvNew, refs)
  {
    BucketsAtMost(vvNew, b, it);
    hide Buckets;
    assert Left(refs, it) == Left(left, it) + BucketsSeen(vvNew, b, unseen, it);
  }

  lemma {:induction false} BucketsAtMost(vvNew: seq<set<nat>>, b: nat, n: nat)
    requires b < |vvNew| && n in vvNew[b]
    ensures Buckets(vvNew[..b], n) < Buckets(vvNew, n)
  {
    var k := |vvNew| - 1;
    if b < k {
      assert vvNew[..k][..b] == vvNew[..b];
      BucketsAtMost(vvNew[..k], b, n);
    }
  }

  lemma NothingLeft(tried: set<nat>, left: set<nat>, vvTried: seq<seq<nat>>)
    requires TriedLeftAfter(tried, left, vvTried)
    ensures left == {} <==> SlotsMatch(vvTried, tried)
  {
    hide Slots;
    if n :| n in left {
      assert (if n in tried then 1 else 0) == 1 + Slots(vvTried, n);
    }
  }

  lemma NoRefsLeft(refs: map<nat, int>, left: map<nat, int>, vvNew: seq<set<nat>>)
    requires NewLeftAfter(refs, left, vvNew)
    ensures left == map[] <==> BucketsMatch(vvNew, refs)
  {
    hide Buckets;
    if n :| n in left {
      assert Left(refs, n) == left[n] + Buckets(vvNew, n);
    } else {
      assert left == map[];
    }
  }

  lemma NoSlots(tried: set<nat>, vvTried: seq<seq<nat>>)
    ensures TriedLeftAfter(tried, tried, vvTried[..0])
  {
    assert vvTried[..0] == [];
  }

  lemma NoBuckets(refs: map<nat, int>, vvNew: seq<set<nat>>)
    requires forall n | n in refs :: refs[n] >= 1
    ensures NewLeftAfter(refs, refs, vvNew[..0])
  {
    assert vvNew[..0] == [];
  }

  lemma NewRefsSize(mapInfo: Infos, mapAddr: map<CNetAddr, nat>, vRandom: seq<nat>)
    ensures |NewRefs(mapInfo)| == |NewIds(mapInfo)|
    ensures EntriesTested(mapInfo, mapAddr, vRandom) ==> forall n | n in NewRefs(mapInfo) :: NewRefs(mapInfo)[n] >= 1
  {
    assert NewRefs(mapInfo).Keys == NewIds(mapInfo);
    if EntriesTested(mapInfo, mapAddr, vRandom) {
      forall n | n in NewRefs(mapInfo) ensures NewRefs(mapInfo)[n] >= 1 {
        assert EntryTested(mapInfo[n], n, mapAddr, vRandom);
      }
    }
  }

  ghost predicate SameLookups(a: map<CNetAddr, nat>, b: map<CNetAddr, nat>) {
    forall addr :: Lookup(a, addr) == Lookup(b, addr)
  }

  lemma SameTest(info: CAddrInfo, n: nat, a: map<CNetAddr, nat>, b: map<CNetAddr, nat>, vRandom: seq<nat>)
    requires SameLookups(a, b)
    ensures EntryTested(info, n, a, vRandom) == EntryTested(info, n, b, vRandom)
  {
  }
}
