/** The random sample that the address manager hands to a peer (addrman.cpp, GetAddr_). */
module AddrSample {
  import opened AddrTables
  import opened AddrEffects
  import opened AddrJoin

  /** How many addresses a table of this size gives away. */
  function Wanted(size: nat): nat {
    var pct := ADDRMAN_GETADDR_MAX_PCT * size / 100;
    if pct > ADDRMAN_GETADDR_MAX then ADDRMAN_GETADDR_MAX else pct
  }

  ghost predicate InTable(a: Infos, mapAddr: map<CNetAddr, nat>, addr: CAddress) {
    && addr.service.addr in mapAddr && mapAddr[addr.service.addr] in a
    && var info := a[mapAddr[addr.service.addr]];
       info.service == addr.service && info.nTime == addr.nTime
  }

  /** The addresses taken so far are the first ones of vRandom. */
  ghost predicate Sample(a: Infos, vRandom: seq<nat>, vAddr: seq<CAddress>) {
    && |vAddr| <= |vRandom|
    && forall i | 0 <= i < |vAddr| :: vRandom[i] in a && a[vRandom[i]].service == vAddr[i].service && a[vRandom[i]].nTime == vAddr[i].nTime
  }

  lemma NextSample(a: Infos, b: Infos, before: seq<nat>, vRandom: seq<nat>, vAddr: seq<CAddress>, n: nat, pos: nat)
    requires Sample(a, before, vAddr) && SameButPos(a, b) && RandomOk(b, vRandom) && n == |vAddr| <= pos < |before|
    requires vRandom == before[n := before[pos]][pos := before[n]]
    ensures vRandom[n] in b
    ensures Sample(b, vRandom, vAddr + [CAddress(b[vRandom[n]].service, b[vRandom[n]].nTime)])
  {
  }

  ghost predicate AllInTable(a: Infos, mapAddr: map<CNetAddr, nat>, vAddr: seq<CAddress>) {
    forall i | 0 <= i < |vAddr| :: InTable(a, mapAddr, vAddr[i])
  }

  ghost predicate Distinct(vAddr: seq<CAddress>) {
    forall i, j | 0 <= i < j < |vAddr| :: vAddr[i].service.addr != vAddr[j].service.addr
  }

  lemma SampleIsDistinct(a: Infos, vRandom: seq<nat>, mapAddr: map<CNetAddr, nat>, vAddr: seq<CAddress>)
    requires Sample(a, vRandom, vAddr) && RandomOk(a, vRandom) && AddrsOk(a, mapAddr)
    ensures AllInTable(a, mapAddr, vAddr) && Distinct(vAddr)
  {
    forall i, j | 0 <= i < j < |vAddr| ensures vAddr[i].service.addr != vAddr[j].service.addr {
      assert vRandom[i] != vRandom[j];
    }
  }

  lemma TableOnlyPos(a: Infos, b: Infos, mapAddr: map<CNetAddr, nat>, vAddr: seq<CAddress>)
    requires SameButPos(a, b) && AllInTable(b, mapAddr, vAddr)
    ensures AllInTable(a, mapAddr, vAddr)
  {
  }

  lemma PosTwice(a: Infos, b: Infos, c: Infos)
    requires SameButPos(a, b) && SameButPos(b, c)
    ensures SameButPos(a, c)
  {
  }

  lemma NoSample(a: Infos, vRandom: seq<nat>)
    ensures Sample(a, vRandom, []) && SameButPos(a, a)
  {
  }

  /** Positions in vRandom matter to nothing else. */
  lemma MovedSample(a: Infos, b: Infos, mapAddr: map<CNetAddr, nat>, vvTried: seq<seq<nat>>, vvNew: seq<set<nat>>, nTried: int, nNew: int, nIdCount: nat)
    requires SameButPos(a, b) && PlacesOk(a, vvTried, vvNew, {}) && AddrsOk(a, mapAddr) && CountsOk(a, nTried, nNew) && IdsOk(a, nIdCount)
    ensures PlacesOk(b, vvTried, vvNew, {}) && AddrsOk(b, mapAddr) && CountsOk(b, nTried, nNew) && IdsOk(b, nIdCount)
  {
    PosDoesNotMatter(a, b, mapAddr, vvTried, vvNew, {});
    hide PlacesOk, AddrsOk;
  }
}
