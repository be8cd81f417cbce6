/** The stack of coin views (main.cpp, CCoinsViewCache; txdb.cpp, CCoinsViewDB): a cache
    over another cache or over the database. */
module CoinsViews {
  import opened CoinRecords
  import opened UtxoSet
  import opened BlockTree

  /** The set seen through a cache laid over another set. */
  function Overlay(under: Utxo, cache: map<Txid, Coins>): Utxo {
    map t | t in under.Keys + cache.Keys && !(if t in cache then cache[t] else under[t]).IsPruned()
      :: if t in cache then cache[t] else under[t]
  }

  /** A table's record for a txid, if it has anything unspent. */
  function Seen(m: map<Txid, Coins>, t: Txid): Option<Coins> {
    if t in m && !m[t].IsPruned() then Some(m[t]) else None
  }

  lemma SameSeen(a: Utxo, b: Utxo)
    requires forall t | t in a :: !a[t].IsPruned()
    requires forall t | t in b :: !b[t].IsPruned()
    requires forall t: Txid :: Seen(a, t) == Seen(b, t)
    ensures a == b
  {
    forall t | t in a ensures t in b && a[t] == b[t] { assert Seen(a, t) == Seen(b, t); }
    forall t | t in b ensures t in a { assert Seen(a, t) == Seen(b, t); }
  }

  /** What a lookup says about the unspent set. */
  function Answer(found: bool, coins: Coins): Option<Coins> {
    if found && !coins.IsPruned() then Some(coins) else None
  }

  lemma AnswerNotFound(coins: Coins)
    ensures Answer(false, coins) == Answer(false, EMPTY_COINS) == None
  {
  }

  /** Copying a record up from below changes nothing that is seen. */
  lemma FillKeepsOverlay(under: Utxo, cache: map<Txid, Coins>, t: Txid, coins: Coins)
    requires t !in cache && Seen(under, t) == Answer(true, coins)
    ensures Overlay(under, cache[t := coins]) == Overlay(under, cache)
  {
  }

  lemma SetOverlay(under: Utxo, cache: map<Txid, Coins>, t: Txid, coins: Coins)
    ensures Overlay(under, cache[t := coins]) == Put(Overlay(under, cache), t, coins)
  {
  }

  lemma OverlayOverlay(under: Utxo, cache: map<Txid, Coins>)
    ensures Overlay(Overlay(under, cache), map[]) == Overlay(under, cache)
  {
  }

  lemma OverlayNothing(under: Utxo, cache: map<Txid, Coins>)
    ensures Overlay(map[], Overlay(under, cache)) == Overlay(under, cache)
  {
  }

  lemma SeenOverlay(under: Utxo, cache: map<Txid, Coins>, t: Txid)
    ensures Seen(Overlay(under, cache), t) == if t in cache then Seen(cache, t) else Seen(under, t)
    ensures t in cache ==> Seen(Overlay(under, cache), t) == Answer(true, cache[t])
    ensures Seen(map[], t) == Answer(false, EMPTY_COINS) == None
  {
  }

  /** `now` is `was` with the records of `m` written in, all but those of `left`. */
  ghost predicate Merged(was: map<Txid, Coins>, m: map<Txid, Coins>, left: set<Txid>, now: map<Txid, Coins>) {
    forall t: Txid :: Seen(now, t) == if t in m && t !in left then Seen(m, t) else Seen(was, t)
  }

  lemma MergeStep(was: map<Txid, Coins>, m: map<Txid, Coins>, left: set<Txid>, now: map<Txid, Coins>, t: Txid)
    requires Merged(was, m, left, now) && t in left && t in m
    ensures Merged(was, m, left - {t}, Put(now, t, m[t]))
  {
    var next := Put(now, t, m[t]);
    forall s: Txid ensures Seen(next, s) == if s in m && s !in left - {t} then Seen(m, s) else Seen(was, s) {
      assert Seen(now, s) == if s in m && s !in left then Seen(m, s) else Seen(was, s);
    }
  }

  lemma MergeDone(was: map<Txid, Coins>, m: map<Txid, Coins>, now: map<Txid, Coins>)
    requires Merged(was, m, {}, now)
    ensures Overlay(map[], now) == Overlay(Overlay(map[], was), m)
  {
    forall t: Txid ensures Seen(Overlay(map[], now), t) == Seen(Overlay(Overlay(map[], was), m), t) {
      SeenOverlay(map[], now, t);
      SeenOverlay(map[], was, t);
      SeenOverlay(Overlay(map[], was), m, t);
      assert Seen(now, t) == if t in m then Seen(m, t) else Seen(was, t);
    }
    SameSeen(Overlay(map[], now), Overlay(Overlay(map[], was), m));
  }

  /** The database deletes a pruned record instead of writing it. */
  class CCoinsViewDB {
    var db: map<Txid, Coins>
    var best: CBlockIndex?

    function Utxo(): Utxo
      reads this
    {
      Overlay(map[], db)
    }

    constructor ()
      ensures db == map[] && best == null
    {
      db, best := map[], null;
    }

    method GetCoins(txid: Txid) returns (found: bool, coins: Coins)
      ensures found <==> txid in db
      ensures coins == if found then db[txid] else EMPTY_COINS
    {
      found := txid in db;
      coins := if found then db[txid] else EMPTY_COINS;
    }

    /** One LevelDB batch: all of it lands, or none of it. */
    method BatchWrite(mapCoins: map<Txid, Coins>, pindex: CBlockIndex?) returns (ok: bool)
      modifies this
      ensures ok ==> Utxo() == Overlay(old(Utxo()), mapCoins)
      ensures ok ==> best == if pindex != null then pindex else old(best)
      ensures !ok ==> db == old(db) && best == old(best)
    {
      var batch := db;
      var left := mapCoins.Keys;
      while left != {}
        invariant left <= mapCoins.Keys
        invariant db == old(db) && best == old(best)
        invariant Merged(db, mapCoins, left, batch)
        decreases left
      {
        var t :| t in left;
        MergeStep(db, mapCoins, left, batch, t);
        if mapCoins[t].IsPruned() {
          batch := batch - {t};
        } else {
          batch := batch[t := mapCoins[t]];
        }
        left := left - {t};
      }
      MergeDone(db, mapCoins, batch);
      ok := *; // whether the disk took the batch
      if ok {
        db := batch;
        if pindex != null {
          best := pindex;
        }
      }
    }
  }

  datatype Backend = OnDisk(db: CCoinsViewDB) | OnCache(view: CCoinsViewCache)

  class CCoinsViewCache {
    const base: Backend
    /** The objects below this view, and with it. */
    ghost const below: set<object>
    ghost const repr: set<object>
    var cacheCoins: map<Txid, Coins>
    var pindexTip: CBlockIndex?

    ghost predicate Stacked()
      decreases repr
    {
      && repr == {this} + below && this !in below
      && (forall o | o in below :: o is CCoinsViewCache || o is CCoinsViewDB)
      && match base
         case OnDisk(db) => below == {db}
         case OnCache(v) => below == v.repr && v.Stacked()
    }

    ghost function BaseUtxo(): Utxo
      requires Stacked()
      reads below
      decreases repr, 0
    {
      match base
      case OnDisk(db) => db.Utxo()
      case OnCache(v) => v.Utxo()
    }

    /** The unspent set this view presents. */
    ghost function Utxo(): Utxo
      requires Stacked()
      reads repr
      decreases repr, 1
    {
      Overlay(BaseUtxo(), cacheCoins)
    }

    ghost function BaseTip(): CBlockIndex?
      requires Stacked()
      reads below
      decreases repr, 0
    {
      match base
      case OnDisk(db) => db.best
      case OnCache(v) => v.Tip()
    }

    ghost function Tip(): CBlockIndex?
      requires Stacked()
      reads repr
      decreases repr, 1
    {
      if pindexTip != null then pindexTip else BaseTip()
    }

    /** Nothing is different but the coins in this layer: not what lies below, not the tip. */
    twostate predicate OnlyCoins()
      requires Stacked()
      reads repr
    {
      && BaseUtxo() == old(BaseUtxo()) && BaseTip() == old(BaseTip())
      && Tip() == old(Tip()) && pindexTip == old(pindexTip)
    }

    constructor (base: Backend)
      requires base.OnCache? ==> base.view.Stacked()
      ensures this.base == base && cacheCoins == map[] && pindexTip == null
      ensures Stacked() && below == match base case OnDisk(db) => {db} case OnCache(v) => v.repr
      ensures Utxo() == BaseUtxo() && Tip() == BaseTip()
    {
      this.base := base;
      below := match base case OnDisk(db) => {db} case OnCache(v) => v.repr;
      repr := {this} + match base case OnDisk(db) => {db} case OnCache(v) => v.repr;
      cacheCoins, pindexTip := map[], null;
      new;
      match base {
        case OnDisk(db) => OverlayNothing(map[], db.db); OverlayOverlay(map[], db.db);
        case OnCache(v) => OverlayOverlay(v.BaseUtxo(), v.cacheCoins);
      }
    }

    method GetCoins(txid: Txid) returns (found: bool, coins: Coins)
      requires Stacked()
      modifies repr
      ensures Utxo() == old(Utxo()) && OnlyCoins()
      ensures Seen(Utxo(), txid) == Answer(found, coins)
      ensures found ==> txid in cacheCoins && cacheCoins[txid] == coins
      ensures !found ==> coins == EMPTY_COINS
      decreases repr
    {
      SeenOverlay(BaseUtxo(), cacheCoins, txid);
      hide Overlay, Seen, Answer;
      if txid in cacheCoins {
        return true, cacheCoins[txid];
      }
      match base {
        case OnDisk(db) =>
          found, coins := db.GetCoins(txid);
          SeenOverlay(map[], db.db, txid);
        case OnCache(v) =>
          found, coins := v.GetCoins(txid);
          assert v.Tip() == old(v.Tip());
      }
      assert BaseUtxo() == old(BaseUtxo()) && BaseTip() == old(BaseTip());
      if found {
        FillKeepsOverlay(BaseUtxo(), cacheCoins, txid, coins);
        cacheCoins := cacheCoins[txid := coins];
      } else {
        AnswerNotFound(coins);
      }
    }

    method HaveCoins(txid: Txid) returns (found: bool)
      requires Stacked()
      modifies repr
      ensures Utxo() == old(Utxo()) && OnlyCoins()
      ensures found ==> txid in cacheCoins && Seen(Utxo(), txid) == Answer(true, cacheCoins[txid])
      ensures !found ==> txid !in Utxo()
    {
      var coins;
      found, coins := GetCoins(txid);
    }

    method SetCoins(txid: Txid, coins: Coins)
      requires Stacked()
      modifies this`cacheCoins
      ensures Utxo() == Put(old(Utxo()), txid, coins)
      ensures OnlyCoins()
    {
      SetOverlay(BaseUtxo(), cacheCoins, txid, coins);
      hide Overlay, Put;
      cacheCoins := cacheCoins[txid := coins];
    }

    method GetBestBlock() returns (pindex: CBlockIndex?)
      requires Stacked()
      modifies repr
      ensures pindex == Tip() == old(Tip()) == pindexTip && BaseTip() == old(BaseTip())
      ensures Utxo() == old(Utxo()) && BaseUtxo() == old(BaseUtxo())
      decreases repr
    {
      hide Overlay;
      if pindexTip == null {
        match base {
          case OnDisk(db) => pindexTip := db.best;
          case OnCache(v) =>
            var tip := v.GetBestBlock();
            pindexTip := tip;
        }
      }
      pindex := pindexTip;
    }

    method SetBestBlock(pindex: CBlockIndex)
      requires Stacked()
      modifies this`pindexTip
      ensures pindexTip == pindex == Tip() && BaseTip() == old(BaseTip())
      ensures Utxo() == old(Utxo()) && BaseUtxo() == old(BaseUtxo())
    {
      pindexTip := pindex;
    }

    method BatchWrite(mapCoins: map<Txid, Coins>, pindex: CBlockIndex?)
      requires Stacked()
      modifies this`cacheCoins, this`pindexTip
      ensures Utxo() == Overlay(old(Utxo()), mapCoins)
      ensures BaseUtxo() == old(BaseUtxo()) && BaseTip() == old(BaseTip()) && pindexTip == pindex
    {
      ghost var under, was := BaseUtxo(), Utxo();
      OverlayOverlay(under, cacheCoins);
      var left := mapCoins.Keys;
      while left != {}
        invariant left <= mapCoins.Keys
        invariant BaseUtxo() == under && BaseTip() == old(BaseTip())
        invariant Merged(was, mapCoins, left, Overlay(under, cacheCoins))
        decreases left
      {
        hide Overlay, Merged, Put;
        var t :| t in left;
        SetOverlay(under, cacheCoins, t, mapCoins[t]);
        MergeStep(was, mapCoins, left, Overlay(under, cacheCoins), t);
        cacheCoins := cacheCoins[t := mapCoins[t]];
        left := left - {t};
      }
      MergeDone(was, mapCoins, Overlay(under, cacheCoins));
      OverlayNothing(under, cacheCoins);
      OverlayNothing(under, old(cacheCoins));
      hide Overlay;
      pindexTip := pindex;
    }

    /** Writes the whole layer down. Over another cache this always works; the tip handed
        down is this view's own, even while that is still null. */
    method Flush() returns (ok: bool)
      requires Stacked()
      modifies repr
      ensures Utxo() == old(Utxo())
      ensures base.OnCache? ==> ok
      ensures ok ==> BaseUtxo() == old(Utxo()) && cacheCoins == map[] && pindexTip == old(pindexTip)
      ensures ok && pindexTip != null ==> BaseTip() == Tip() == pindexTip
      ensures ok && base.OnCache? ==> base.view.pindexTip == pindexTip
      ensures !ok ==> BaseUtxo() == old(BaseUtxo()) && BaseTip() == old(BaseTip()) && Tip() == old(Tip())
    {
      ghost var under := BaseUtxo();
      match base {
        case OnDisk(db) =>
          ok := db.BatchWrite(cacheCoins, pindexTip);
        case OnCache(v) =>
          v.BatchWrite(cacheCoins, pindexTip);
          ok := true;
      }
      OverlayOverlay(under, cacheCoins);
      hide Overlay;
      if ok {
        cacheCoins := map[];
      }
    }
  }
}
