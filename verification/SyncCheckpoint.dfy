/** Synchronized checkpoints (checkpointsync.cpp). Signatures, database writes and SetBestChain
    succeed or fail arbitrarily; a hash of 0 stands for none. */
module SyncCheckpoint {
  import opened BlockTree

  type Index = map<nat, CBlockIndex>

  /** The block is the index's entry for its hash. */
  ghost predicate Indexed(m: Index, b: CBlockIndex) {
    b.hash in m && m[b.hash] == b
  }

  /** mapBlockIndex: entries stand under their own hashes, and with them their ancestors. */
  ghost predicate IndexOk(m: Index) {
    0 !in m && forall h | h in m :: m[h].hash == h && m[h].Linked() && (m[h].pprev != null ==> Indexed(m, m[h].pprev))
  }

  lemma {:induction false} AncestorsIndexed(m: Index, b: CBlockIndex, h: nat)
    requires IndexOk(m) && Indexed(m, b) && h <= b.nHeight
    ensures b.Linked() && Indexed(m, b.Ancestor(h))
    decreases b.nHeight
  {
    assert m[b.hash].Linked();
    if h < b.nHeight { AncestorsIndexed(m, b.pprev, h); }
  }

  /** Strictly above, on the same branch. */
  ghost predicate StrictlyAbove(c: CBlockIndex, a: CBlockIndex) {
    c.Descends(a) && c.nHeight > a.nHeight
  }

  lemma AboveTransitive(c: CBlockIndex, b: CBlockIndex, a: CBlockIndex)
    requires StrictlyAbove(c, b) && StrictlyAbove(b, a)
    ensures StrictlyAbove(c, a)
  {
    DescendsTransitive(c, b, a);
  }

  /** Each element is strictly above all before it. */
  ghost predicate IsLine(s: seq<CBlockIndex>) {
    forall i, j | 0 <= i < j < |s| :: StrictlyAbove(s[j], s[i])
  }

  lemma LineGrows(s: seq<CBlockIndex>, c: CBlockIndex)
    requires IsLine(s) && s != [] && StrictlyAbove(c, s[|s| - 1])
    ensures IsLine(s + [c])
  {
    hide StrictlyAbove;
    forall i, j | 0 <= i < j < |s + [c]| ensures StrictlyAbove((s + [c])[j], (s + [c])[i]) {
      if j == |s| && i < |s| - 1 { AboveTransitive(c, s[|s| - 1], s[i]); }
    }
  }

  /** Neither block is an ancestor of the other. */
  ghost predicate Conflicting(a: CBlockIndex, b: CBlockIndex) {
    !a.Descends(b) && !b.Descends(a)
  }

  /** Which parents a block above the checkpoint may have. */
  lemma ConnectedIsEnough(p: CBlockIndex, connected: CBlockIndex, sync: CBlockIndex)
    requires p.Linked() && p.Descends(connected) && connected.Descends(sync)
    ensures p.Descends(sync)
  {
    DescendsTransitive(p, connected, sync);
  }

  class CheckpointState {
    var mapBlockIndex: Index
    var hashSyncCheckpoint: nat
    var hashPendingCheckpoint: nat
    var hashConnectedBlock: nat
    var hashInvalidCheckpoint: nat
    /** The checkpoints accepted since the last reset, the current one last. */
    ghost var accepted: seq<CBlockIndex>

    ghost predicate Valid()
      reads this
    {
      && IndexOk(mapBlockIndex) && hashSyncCheckpoint in mapBlockIndex
      && (hashConnectedBlock != 0 ==> hashConnectedBlock in mapBlockIndex && mapBlockIndex[hashConnectedBlock].Descends(mapBlockIndex[hashSyncCheckpoint]))
      && accepted != [] && accepted[|accepted| - 1] == mapBlockIndex[hashSyncCheckpoint] && IsLine(accepted)
    }

    /** The node starts with its last checkpoint and no shortcut. */
    constructor (index: Index, hashCheckpoint: nat)
      requires IndexOk(index) && hashCheckpoint in index
      ensures Valid() && mapBlockIndex == index && hashSyncCheckpoint == hashCheckpoint && accepted == [index[hashCheckpoint]]
    {
      mapBlockIndex, hashSyncCheckpoint := index, hashCheckpoint;
      hashPendingCheckpoint, hashConnectedBlock, hashInvalidCheckpoint := 0, 0, 0;
      accepted := [index[hashCheckpoint]];
    }

    /** The block tree grows. */
    method AddBlock(b: CBlockIndex)
      requires Valid() && b.Linked() && b.hash != 0 && b.hash !in mapBlockIndex
      requires b.pprev != null ==> Indexed(mapBlockIndex, b.pprev)
      modifies this`mapBlockIndex
      ensures Valid() && mapBlockIndex == old(mapBlockIndex)[b.hash := b]
    {
      hide CBlockIndex.Descends, CBlockIndex.Linked, IsLine;
      mapBlockIndex := mapBlockIndex[b.hash := b];
    }

    /** Walks down from a block to a height. */
    method TraceBack(b: CBlockIndex, nHeight: nat) returns (found: bool, pindex: CBlockIndex)
      requires b.Linked()
      ensures found && pindex.Linked() && pindex == if nHeight <= b.nHeight then b.Ancestor(nHeight) else b
    {
      pindex := b;
      found := true;
      while pindex.nHeight > nHeight
        invariant pindex.Linked() && pindex.nHeight <= b.nHeight && pindex == b.Ancestor(pindex.nHeight)
        invariant nHeight <= b.nHeight ==> nHeight <= pindex.nHeight
        invariant nHeight > b.nHeight ==> pindex == b
        decreases pindex.nHeight
      {
        ParentOfAncestor(b, pindex.nHeight);
        if pindex.pprev == null {
          return false, pindex;
        }
        pindex := pindex.pprev;
      }
    }

    /** Only a descendant of the current checkpoint may replace it; a conflicting one is noted. */
    method ValidateSyncCheckpoint(hashCheckpoint: nat) returns (ok: bool)
      requires Valid()
      modifies this`hashInvalidCheckpoint
      ensures Valid()
      ensures ok <==> hashCheckpoint in mapBlockIndex && StrictlyAbove(mapBlockIndex[hashCheckpoint], mapBlockIndex[hashSyncCheckpoint])
      ensures hashInvalidCheckpoint == if hashCheckpoint in mapBlockIndex && Conflicting(mapBlockIndex[hashCheckpoint], mapBlockIndex[hashSyncCheckpoint])
                                       then hashCheckpoint else old(hashInvalidCheckpoint)
    {
      if hashSyncCheckpoint !in mapBlockIndex {
        return false;
      }
      if hashCheckpoint !in mapBlockIndex {
        return false;
      }
      var pindexSync := mapBlockIndex[hashSyncCheckpoint];
      var pindexRecv := mapBlockIndex[hashCheckpoint];
      var found, pindex;
      if pindexRecv.nHeight <= pindexSync.nHeight {
        AncestorsIndexed(mapBlockIndex, pindexSync, pindexRecv.nHeight);
        found, pindex := TraceBack(pindexSync, pindexRecv.nHeight);
        if !found {
          return false;
        }
        if pindex.hash != hashCheckpoint {
          hashInvalidCheckpoint := hashCheckpoint;
        }
        AncestorSelf(pindexSync);
        return false;
      }
      AncestorsIndexed(mapBlockIndex, pindexRecv, pindexSync.nHeight);
      found, pindex := TraceBack(pindexRecv, pindexSync.nHeight);
      if !found {
        return false;
      }
      if pindex.hash != hashSyncCheckpoint {
        hashInvalidCheckpoint := hashCheckpoint;
        return false;
      }
      ok := true;
    }

    /** Stores a checkpoint that continues the line, or fails without a trace. */
    method WriteSyncCheckpoint(hashCheckpoint: nat) returns (ok: bool)
      requires Valid() && hashCheckpoint in mapBlockIndex && StrictlyAbove(mapBlockIndex[hashCheckpoint], mapBlockIndex[hashSyncCheckpoint])
      modifies this`hashSyncCheckpoint, this`hashConnectedBlock, this`accepted
      ensures Valid()
      ensures ok ==> hashSyncCheckpoint == hashConnectedBlock == hashCheckpoint && accepted == old(accepted) + [mapBlockIndex[hashCheckpoint]]
      ensures !ok ==> hashSyncCheckpoint == old(hashSyncCheckpoint) && accepted == old(accepted) && hashConnectedBlock == old(hashConnectedBlock)
    {
      ok := *; // the database
      if ok {
        AncestorSelf(mapBlockIndex[hashCheckpoint]);
        LineGrows(accepted, mapBlockIndex[hashCheckpoint]);
        hide IsLine;
        accepted := accepted + [mapBlockIndex[hashCheckpoint]];
        hashSyncCheckpoint := hashCheckpoint;
        hashConnectedBlock := hashCheckpoint;
      }
    }

    /** Makes the checkpoint's branch the best one when enforced, and writes it. */
    method Adopt(hashCheckpoint: nat) returns (ok: bool)
      requires Valid() && hashCheckpoint in mapBlockIndex && StrictlyAbove(mapBlockIndex[hashCheckpoint], mapBlockIndex[hashSyncCheckpoint])
      modifies this`hashSyncCheckpoint, this`hashConnectedBlock, this`hashInvalidCheckpoint, this`accepted
      ensures Valid()
      ensures ok ==> hashSyncCheckpoint == hashConnectedBlock == hashCheckpoint && accepted == old(accepted) + [mapBlockIndex[hashCheckpoint]]
      ensures ok ==> hashInvalidCheckpoint == old(hashInvalidCheckpoint)
      ensures !ok ==> hashSyncCheckpoint == old(hashSyncCheckpoint) && accepted == old(accepted)
    {
      hide StrictlyAbove, IsLine, IndexOk;
      var fEnforcedOffMainChain, fSetBestChain := *, *;
      if fEnforcedOffMainChain && !fSetBestChain {
        hashInvalidCheckpoint := hashCheckpoint;
        return false;
      }
      ok := WriteSyncCheckpoint(hashCheckpoint);
    }

    method AcceptPendingSyncCheckpoint() returns (ok: bool)
      requires Valid()
      modifies this`hashSyncCheckpoint, this`hashPendingCheckpoint, this`hashConnectedBlock, this`hashInvalidCheckpoint, this`accepted
      ensures Valid()
      ensures ok ==> old(hashPendingCheckpoint) in mapBlockIndex && hashSyncCheckpoint == old(hashPendingCheckpoint) && hashPendingCheckpoint == 0
      ensures ok ==> accepted == old(accepted) + [mapBlockIndex[hashSyncCheckpoint]]
      ensures !ok ==> hashSyncCheckpoint == old(hashSyncCheckpoint) && accepted == old(accepted)
      ensures var h := old(hashPendingCheckpoint);
              !ok ==> hashPendingCheckpoint == if h in mapBlockIndex && !StrictlyAbove(mapBlockIndex[h], mapBlockIndex[hashSyncCheckpoint]) then 0 else h
    {
      hide StrictlyAbove, IsLine, IndexOk, Conflicting;
      ok := false;
      if hashPendingCheckpoint != 0 && hashPendingCheckpoint in mapBlockIndex {
        var valid := ValidateSyncCheckpoint(hashPendingCheckpoint);
        if !valid {
          hashPendingCheckpoint := 0;
          return false;
        }
        ok := Adopt(hashPendingCheckpoint);
        if ok {
          hashPendingCheckpoint := 0;
        }
      }
    }

    method ProcessSyncCheckpoint(hashCheckpoint: nat, fSigned: bool) returns (ok: bool)
      requires Valid()
      modifies this`hashSyncCheckpoint, this`hashPendingCheckpoint, this`hashConnectedBlock, this`hashInvalidCheckpoint, this`accepted
      ensures Valid()
      ensures ok ==> fSigned && hashCheckpoint in mapBlockIndex && hashSyncCheckpoint == hashCheckpoint && hashPendingCheckpoint == 0
      ensures ok ==> accepted == old(accepted) + [mapBlockIndex[hashCheckpoint]]
      ensures !ok ==> hashSyncCheckpoint == old(hashSyncCheckpoint) && accepted == old(accepted)
      ensures !ok ==> hashPendingCheckpoint == if fSigned && hashCheckpoint !in mapBlockIndex then hashCheckpoint else old(hashPendingCheckpoint)
    {
      hide StrictlyAbove, IsLine, IndexOk, Conflicting;
      if !fSigned {
        return false;
      }
      if hashCheckpoint !in mapBlockIndex {
        hashPendingCheckpoint := hashCheckpoint;
        return false;
      }
      var valid := ValidateSyncCheckpoint(hashCheckpoint);
      if !valid {
        return false;
      }
      ok := Adopt(hashCheckpoint);
      if ok {
        hashPendingCheckpoint := 0;
      }
    }

    /** Back to the last hardened checkpoint, made part of the main chain if need be, when its
        block is known, else to genesis: a new line starts. `fInMainChain` says where the known
        block is; it becomes pending when it is not known. */
    method ResetSyncCheckpoint(hash: nat, hashGenesisBlock: nat, fInMainChain: bool) returns (ok: bool)
      requires Valid() && hashGenesisBlock in mapBlockIndex
      modifies this`hashSyncCheckpoint, this`hashPendingCheckpoint, this`hashConnectedBlock, this`accepted
      ensures Valid()
      ensures ok ==> hashSyncCheckpoint == hashConnectedBlock == if hash in mapBlockIndex then hash else hashGenesisBlock
      ensures ok ==> accepted == [mapBlockIndex[hashSyncCheckpoint]]
      ensures !ok ==> hashSyncCheckpoint == old(hashSyncCheckpoint) && accepted == old(accepted)
      ensures hashPendingCheckpoint == if hash in mapBlockIndex then old(hashPendingCheckpoint) else hash
    {
      ok := false;
      var fSetBestChain, fWritten := *, *;
      var fNowInMainChain := fInMainChain;
      if hash in mapBlockIndex && !fInMainChain {
        if !fSetBestChain {
          return false;
        }
        fNowInMainChain := true; // SetBestChain made it the tip
      } else if hash !in mapBlockIndex {
        hashPendingCheckpoint := hash;
      }
      if fWritten {
        hashSyncCheckpoint := if hash in mapBlockIndex && fNowInMainChain then hash else hashGenesisBlock;
        hashConnectedBlock := hashSyncCheckpoint;
        accepted := [mapBlockIndex[hashSyncCheckpoint]];
        AncestorSelf(mapBlockIndex[hashSyncCheckpoint]);
        ok := true;
      }
    }

    /** The block that CheckSyncCheckpoint's shortcut remembers, if any. */
    method Connected() returns (pindexConnected: CBlockIndex?)
      ensures pindexConnected == if hashConnectedBlock != 0 && hashConnectedBlock in mapBlockIndex then mapBlockIndex[hashConnectedBlock] else null
    {
      pindexConnected := null;
      if hashConnectedBlock != 0 && hashConnectedBlock in mapBlockIndex {
        pindexConnected := mapBlockIndex[hashConnectedBlock];
      }
    }

    /** Whether a parent is the sync checkpoint or above it, looking for the remembered block first. */
    method DescendsFromSync(pindexPrev: CBlockIndex) returns (ok: bool)
      requires Valid() && Indexed(mapBlockIndex, pindexPrev) && pindexPrev.nHeight >= mapBlockIndex[hashSyncCheckpoint].nHeight
      ensures ok <==> pindexPrev.Descends(mapBlockIndex[hashSyncCheckpoint])
    {
      hide IsLine;
      var pindexSync := mapBlockIndex[hashSyncCheckpoint];
      var pindexConnected := Connected();
      var pindex, found := pindexPrev, true;
      AncestorSelf(pindexPrev);
      AncestorsIndexed(mapBlockIndex, pindexPrev, pindexSync.nHeight);
      if pindexConnected != null {
        if pindexConnected.nHeight <= pindexPrev.nHeight { AncestorsIndexed(mapBlockIndex, pindexPrev, pindexConnected.nHeight); }
        found, pindex := TraceBack(pindexPrev, pindexConnected.nHeight);
        if !found {
          return false;
        }
        if pindex.nHeight == pindexConnected.nHeight && pindex.hash == hashConnectedBlock {
          ConnectedIsEnough(pindexPrev, pindexConnected, pindexSync);
          return true;
        }
      }
      AncestorOfAncestor(pindexPrev, pindex.nHeight, pindexSync.nHeight);
      found, pindex := TraceBack(pindex, pindexSync.nHeight);
      ok := found && pindex.nHeight >= pindexSync.nHeight && pindex.hash == hashSyncCheckpoint;
    }

    /** A block above the checkpoint must have it among its ancestors, one at its height must be
        it, one below must be known. */
    method CheckSyncCheckpoint(hashBlock: nat, pindexPrev: CBlockIndex) returns (ok: bool)
      requires Valid() && Indexed(mapBlockIndex, pindexPrev)
      modifies this`hashConnectedBlock
      ensures Valid()
      ensures
        var sync := mapBlockIndex[hashSyncCheckpoint];
        var nHeight := pindexPrev.nHeight + 1;
        ok <==> if nHeight > sync.nHeight then pindexPrev.Descends(sync)
                else if nHeight == sync.nHeight then hashBlock == hashSyncCheckpoint
                else hashBlock in mapBlockIndex
      ensures hashConnectedBlock == if ok && pindexPrev.nHeight + 1 > mapBlockIndex[hashSyncCheckpoint].nHeight then pindexPrev.hash else old(hashConnectedBlock)
    {
      hide IsLine, CBlockIndex.Descends, CBlockIndex.Linked;
      var nHeight := pindexPrev.nHeight + 1;
      var pindexSync := mapBlockIndex[hashSyncCheckpoint];
      if nHeight > pindexSync.nHeight {
        var connected := DescendsFromSync(pindexPrev);
        if !connected {
          return false;
        }
      }
      if nHeight == pindexSync.nHeight && hashBlock != hashSyncCheckpoint {
        return false;
      }
      if nHeight < pindexSync.nHeight && hashBlock !in mapBlockIndex {
        return false;
      }
      if nHeight > pindexSync.nHeight {
        hashConnectedBlock := pindexPrev.hash;
      }
      ok := true;
    }
  }
}
