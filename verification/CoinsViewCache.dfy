/** CCoinsViewCache, CCoinsModifier and CCoinsViewDB as objects linked by base pointers, each method
    proved to do to the stack below it exactly what the value model does. */
module CoinsViewCache {
  import opened Coins
  import opened CoinsView
  import opened Options
  import Sets

  class CoinsViewDB {
    var coins: map<Txid, Coins>
    var best: BlockHash

    constructor ()
      ensures coins == map[] && best == NULL_HASH
    {
      coins, best := map[], NULL_HASH;
    }

    /** Erase pruned dirty entries and write the other dirty ones, in whatever order they come. */
    method BatchWrite(child: CoinsMap, hashBlock: BlockHash)
      modifies this
      ensures coins == MergedCoins(old(coins), child)
      ensures best == if hashBlock == NULL_HASH then old(best) else hashBlock
    {
      var rest := child.Keys;
      ghost var was := coins;
      while rest != {}
        invariant rest <= child.Keys && best == old(best)
        invariant forall k :: Lookup(coins, k) == if k in rest then Lookup(was, k) else MergedCoinsAt(was, child, k)
        decreases |rest|
      {
        Sets.Inhabited(rest);
        var k :| k in rest;
        if child[k].isDirty {
          if child[k].coins.IsPruned() {
            coins := coins - {k};
          } else {
            coins := coins[k := child[k].coins];
          }
        }
        rest := rest - {k};
      }
      SameLookups(coins, MergedCoins(was, child));
      if hashBlock != NULL_HASH {
        best := hashBlock;
      }
    }
  }

  datatype Backend = OnDisk(db: CoinsViewDB) | InMemory(cache: CoinsViewCache)

  class CoinsViewCache {
    const base: Backend
    var hasModifier: bool
    var hashBlock: BlockHash
    var cacheCoins: CoinsMap
    ghost var modified: Txid       // the entry the active CoinsModifier refers to
    ghost const depth: nat
    ghost const Repr: set<object>  // this cache and everything below it

    ghost predicate Valid()
      decreases depth
    {
      && this in Repr
      && match base
         case OnDisk(db) => depth == 1 && Repr == {this, db}
         case InMemory(c) => depth == c.depth + 1 && c.Valid() && this !in c.Repr && Repr == {this} + c.Repr
    }

    /** The stack of layers from this cache down, as a value. */
    ghost function State(): (s: Stack)
      requires Valid()
      reads Repr
      ensures s.Cache?
      decreases depth
    {
      Cache(match base case OnDisk(db) => Database(db.coins, db.best) case InMemory(c) => c.State(),
            cacheCoins, hashBlock, if hasModifier then Some(modified) else None)
    }

    constructor OverDatabase(db: CoinsViewDB)
      ensures Valid() && base == OnDisk(db) && fresh(Repr - {db})
      ensures State() == Cache(Database(db.coins, db.best), map[], NULL_HASH, None)
    {
      base, hasModifier, hashBlock, cacheCoins := OnDisk(db), false, NULL_HASH, map[];
      depth, Repr := 1, {this, db};
    }

    constructor OverCache(c: CoinsViewCache)
      requires c.Valid()
      ensures Valid() && base == InMemory(c) && fresh(Repr - c.Repr)
      ensures State() == Cache(c.State(), map[], NULL_HASH, None)
    {
      base, hasModifier, hashBlock, cacheCoins := InMemory(c), false, NULL_HASH, map[];
      depth, Repr := c.depth + 1, {this} + c.Repr;
    }

    /** base->GetCoins, which for a cache below may fill that cache. */
    method BaseGetCoins(txid: Txid) returns (r: Option<Coins>)
      requires Valid()
      modifies Repr - {this}
      ensures State().base == Fetch(old(State().base), txid)
      ensures r == Got(old(State().base), txid)
      decreases depth, 0
    {
      match base
      case OnDisk(db) =>
        r := if txid in db.coins then Some(db.coins[txid]) else None;
      case InMemory(c) =>
        r := c.GetCoins(txid);
    }

    method FetchCoins(txid: Txid) returns (found: bool)
      requires Valid()
      modifies Repr
      ensures State() == Fetch(old(State()), txid)
      ensures found <==> txid in cacheCoins
      ensures found <==> Got(old(State()), txid).Some?
      ensures found ==> cacheCoins[txid].coins == Got(old(State()), txid).value
      decreases depth, 1
    {
      if txid in cacheCoins {
        return true;
      }
      var tmp := BaseGetCoins(txid);
      if tmp.None? {
        return false;
      }
      cacheCoins := cacheCoins[txid := Entry(tmp.value, false, false)];
      if tmp.value.IsPruned() {
        cacheCoins := cacheCoins[txid := Entry(tmp.value, false, true)];
      }
      found := true;
    }

    method GetCoins(txid: Txid) returns (r: Option<Coins>)
      requires Valid()
      modifies Repr
      ensures State() == Fetch(old(State()), txid)
      ensures r == Got(old(State()), txid)
      decreases depth, 2
    {
      var found := FetchCoins(txid);
      r := if found then Some(cacheCoins[txid].coins) else None;
    }

    method HaveCoins(txid: Txid) returns (have: bool)
      requires Valid()
      modifies Repr
      ensures State() == Fetch(old(State()), txid)
      ensures have == CoinsView.HaveCoins(old(State()), txid)
    {
      var found := FetchCoins(txid);
      have := found && |cacheCoins[txid].coins.vout| > 0;
    }

    method GetBestBlock() returns (h: BlockHash)
      requires Valid()
      modifies Repr
      ensures State() == FillBest(old(State()))
      ensures h == Best(old(State()))
      decreases depth
    {
      if hashBlock == NULL_HASH {
        var b;
        match base {
          case OnDisk(db) => b := db.best;
          case InMemory(c) => b := c.GetBestBlock();
        }
        hashBlock := b;
      }
      h := hashBlock;
    }

    method SetBestBlock(hashBlockIn: BlockHash)
      requires Valid()
      modifies this`hashBlock
      ensures var s := old(State()); State() == Cache(s.base, s.entries, hashBlockIn, s.open)
      ensures hashBlockIn != NULL_HASH ==> Best(State()) == hashBlockIn
    {
      hashBlock := hashBlockIn;
    }

    method ModifyCoins(txid: Txid) returns (m: CoinsModifier)
      requires Valid()
      requires !hasModifier
      modifies Repr
      ensures fresh(m) && m.cache == this && m.txid == txid
      ensures State() == CoinsView.ModifyCoins(old(State()), txid)
    {
      if txid !in cacheCoins {
        var got := BaseGetCoins(txid);
        if got.None? {
          cacheCoins := cacheCoins[txid := Entry(EMPTY, false, true)];
        } else if got.value.IsPruned() {
          cacheCoins := cacheCoins[txid := Entry(got.value, false, true)];
        } else {
          cacheCoins := cacheCoins[txid := Entry(got.value, false, false)];
        }
      }
      cacheCoins := cacheCoins[txid := cacheCoins[txid].(isDirty := true)];
      m := new CoinsModifier(this, txid);
    }

    method ModifyNewCoins(txid: Txid, coinbase: bool) returns (m: CoinsModifier?)
      requires Valid()
      requires !hasModifier
      modifies this
      ensures m == null <==> CoinsView.ModifyNewCoins(old(State()), txid, coinbase).None?
      ensures m != null ==> fresh(m) && m.cache == this && m.txid == txid
      ensures m != null ==> State() == CoinsView.ModifyNewCoins(old(State()), txid, coinbase).value
      ensures m == null ==> State() == old(State())
    {
      if txid !in cacheCoins {
        cacheCoins := cacheCoins[txid := Entry(EMPTY, false, false)];
      }
      if !coinbase {
        if !cacheCoins[txid].coins.IsPruned() {
          return null;
        }
        if !cacheCoins[txid].isDirty {
          cacheCoins := cacheCoins[txid := cacheCoins[txid].(isFresh := true)];
        }
      }
      cacheCoins := cacheCoins[txid := cacheCoins[txid].(coins := EMPTY)];
      cacheCoins := cacheCoins[txid := cacheCoins[txid].(isDirty := true)];
      m := new CoinsModifier(this, txid);
    }

    /** One dirty entry of a child; false is the logic_error. */
    method BatchWriteEntry(k: Txid, e: Entry) returns (ok: bool)
      requires e.isDirty
      modifies this`cacheCoins
      ensures ok <==> !Misapplied(old(cacheCoins), map[k := e], k)
      ensures ok ==> Lookup(cacheCoins, k) == MergedAt(old(cacheCoins), map[k := e], k)
      ensures forall j :: j != k ==> Lookup(cacheCoins, j) == Lookup(old(cacheCoins), j)
    {
      if k !in cacheCoins {
        if !(e.isFresh && e.coins.IsPruned()) {
          cacheCoins := cacheCoins[k := Entry(e.coins, true, false)];
          if e.isFresh {
            cacheCoins := cacheCoins[k := Entry(e.coins, true, true)];
          }
        }
      } else {
        if e.isFresh && !cacheCoins[k].coins.IsPruned() {
          return false;
        }
        if cacheCoins[k].isFresh && e.coins.IsPruned() {
          cacheCoins := cacheCoins - {k};
        } else {
          cacheCoins := cacheCoins[k := Entry(e.coins, true, cacheCoins[k].isFresh)];
        }
      }
      ok := true;
    }

    /** Merge a child's entries, in whatever order they come. */
    method MergeEntries(child: CoinsMap) returns (ok: bool)
      modifies this`cacheCoins
      ensures ok <==> forall k :: !Misapplied(old(cacheCoins), child, k)
      ensures ok ==> cacheCoins == Merged(old(cacheCoins), child)
    {
      var rest := child.Keys;
      ghost var was := cacheCoins;
      while rest != {}
        invariant rest <= child.Keys
        invariant forall k :: k !in rest ==> !Misapplied(was, child, k)
        invariant forall k :: Lookup(cacheCoins, k) == if k in rest then Lookup(was, k) else MergedAt(was, child, k)
        decreases |rest|
      {
        Sets.Inhabited(rest);
        var k :| k in rest;
        if child[k].isDirty {
          ghost var before := cacheCoins;
          var merged := BatchWriteEntry(k, child[k]);
          assert Lookup(before, k) == Lookup(was, k);
          assert Misapplied(was, child, k) <==> Misapplied(before, map[k := child[k]], k);
          if !merged {
            return false;
          }
          assert MergedAt(was, child, k) == MergedAt(before, map[k := child[k]], k);
        }
        rest := rest - {k};
      }
      SameLookups(cacheCoins, Merged(was, child));
      ok := true;
    }

    method BatchWrite(child: CoinsMap, hashBlockIn: BlockHash) returns (ok: bool)
      requires Valid()
      requires !hasModifier
      modifies this
      ensures ok <==> CoinsView.BatchWrite(old(State()), child, hashBlockIn).Some?
      ensures ok ==> State() == CoinsView.BatchWrite(old(State()), child, hashBlockIn).value
      ensures ok <==> forall k :: k in child && k in old(cacheCoins) && child[k].isDirty && child[k].isFresh ==>
                        old(cacheCoins)[k].coins.IsPruned()
    {
      ok := MergeEntries(child);
      assert forall k :: k in child && k in old(cacheCoins) && !old(cacheCoins)[k].coins.IsPruned() ==>
                           (Misapplied(old(cacheCoins), child, k) <==> child[k].isDirty && child[k].isFresh);
      if ok {
        hashBlock := hashBlockIn;
      }
    }

    method Flush() returns (ok: bool)
      requires Valid()
      requires Flushable(State())
      modifies Repr
      ensures ok <==> CoinsView.Flush(old(State())).Some?
      ensures ok ==> State() == CoinsView.Flush(old(State())).value
      ensures cacheCoins == map[] && hashBlock == old(hashBlock)
    {
      match base {
        case OnDisk(db) =>
          db.BatchWrite(cacheCoins, hashBlock);
          ok := true;
        case InMemory(c) =>
          assert State().base == c.State();
          ok := c.BatchWrite(cacheCoins, hashBlock);
      }
      cacheCoins := map[];
    }

    method Uncache(txid: Txid)
      requires Valid()
      modifies this
      ensures State() == CoinsView.Uncache(old(State()), txid)
      ensures forall j :: Lookup(cacheCoins, j) ==
                if j == txid && j in old(cacheCoins) && !old(cacheCoins)[j].isDirty && !old(cacheCoins)[j].isFresh
                then None else Lookup(old(cacheCoins), j)
    {
      if txid in cacheCoins && !cacheCoins[txid].isDirty && !cacheCoins[txid].isFresh {
        cacheCoins := cacheCoins - {txid};
      }
    }
  }

  class CoinsModifier {
    const cache: CoinsViewCache
    const txid: Txid

    constructor (cache: CoinsViewCache, txid: Txid)
      requires !cache.hasModifier
      modifies cache`hasModifier, cache`modified
      ensures this.cache == cache && this.txid == txid
      ensures cache.hasModifier && cache.modified == txid
    {
      this.cache, this.txid := cache, txid;
      new;
      cache.hasModifier, cache.modified := true, txid;
    }

    ghost predicate Active()
      reads cache
    {
      cache.Valid() && cache.hasModifier && cache.modified == txid && txid in cache.cacheCoins
    }

    /** `*modifier = c` */
    method Assign(c: Coins)
      requires Active()
      modifies cache
      ensures Active() && cache.State() == Write(old(cache.State()), c)
    {
      cache.cacheCoins := cache.cacheCoins[txid := cache.cacheCoins[txid].(coins := c)];
    }

    /** ~CCoinsModifier */
    method Close()
      requires Active()
      modifies cache
      ensures cache.State() == CoinsView.Close(old(cache.State()))
      ensures txid in cache.cacheCoins <==>
                !(old(cache.cacheCoins)[txid].isFresh && old(cache.cacheCoins)[txid].coins.IsPruned())
    {
      cache.hasModifier := false;
      var c := Cleanup(cache.cacheCoins[txid].coins);
      cache.cacheCoins := cache.cacheCoins[txid := cache.cacheCoins[txid].(coins := c)];
      if cache.cacheCoins[txid].isFresh && c.IsPruned() {
        cache.cacheCoins := cache.cacheCoins - {txid};
      }
    }
  }
}
