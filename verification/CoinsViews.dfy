/**
 The caches as objects that update their entries in place. `Model` reads a stack of
 them off as a value; every method does to it what module CoinsCache says.
 */
module CoinsViews {
  import opened Basics
  import opened Coins
  import opened CoinsCache

  class CoinsDb {
    var store: map<TxId, Coins>

    constructor (coins: map<TxId, Coins>)
      ensures store == coins
    {
      store := coins;
    }

    method BatchWrite(mapCoins: CoinsMap)
      modifies this
      ensures Bottom(store) == Written(Bottom(old(store)), mapCoins)
    {
      hide Written;
      var left := mapCoins.Keys;
      NothingWritten(Bottom(store), mapCoins - left);
      while left != {}
        invariant left <= mapCoins.Keys
        invariant Bottom(store) == Written(Bottom(old(store)), mapCoins - left)
      {
        var id :| id in left;
        var e := mapCoins[id];
        StoreOneMore(old(store), mapCoins, left, id, store);
        if e.isDirty {
          store := if e.coins.IsPruned() then store - {id} else store[id := e.coins];
        }
        left := left - {id};
      }
      assert mapCoins - left == mapCoins;
    }
  }

  datatype View = Db(db: CoinsDb) | Cache(cache: CoinsViewCache) {
    ghost function Repr(): (r: set<object>) {
      if Db? then {db} else cache.repr
    }

    ghost function Height(): (h: nat) {
      if Db? then 0 else cache.height
    }

    ghost predicate Stacked()
      decreases Height(), 1
    {
      Cache? ==> cache.Stacked()
    }

    ghost function Model(): (s: Stack)
      requires Stacked()
      reads Repr()
      decreases Height(), 1
    {
      if Db? then Bottom(db.store) else cache.Model()
    }

    method GetCoins(txid: TxId) returns (r: Option<Coins>)
      requires Stacked()
      modifies Repr()
      ensures Model() == Fetched(old(Model()), txid)
      ensures r == Lookup(old(Model()), txid)
      decreases Height(), 1
    {
      if Db? {
        r := if txid in db.store then Some(db.store[txid]) else None;
      } else {
        r := cache.FetchCoins(txid);
      }
    }

    method BatchWrite(mapCoins: CoinsMap)
      requires Stacked() && Inv(Model()) && EntriesOk(mapCoins, Model())
      requires Cache? ==> !cache.hasModifier
      modifies Repr()
      ensures Model() == Written(old(Model()), mapCoins)
    {
      if Db? {
        db.BatchWrite(mapCoins);
      } else {
        cache.BatchWrite(mapCoins);
      }
    }
  }

  class CoinsViewCache {
    const base: View
    var cacheCoins: CoinsMap
    var hasModifier: bool
    ghost const repr: set<object>
    ghost const height: nat

    /** The objects of a stack are all different, each cache on top of its base. */
    ghost predicate Stacked()
      decreases height, 0
    {
      && height == base.Height() + 1
      && repr == {this} + base.Repr() && this !in base.Repr()
      && base.Stacked()
    }

    ghost function Model(): (s: Stack)
      requires Stacked()
      reads repr
      decreases height, 0
    {
      Layer(cacheCoins, base.Model())
    }

    constructor (baseIn: View)
      requires baseIn.Stacked()
      ensures Stacked() && base == baseIn && fresh(this)
      ensures Model() == Layer(map[], baseIn.Model()) && !hasModifier
    {
      base := baseIn;
      cacheCoins := map[];
      hasModifier := false;
      repr := {this} + baseIn.Repr();
      height := baseIn.Height() + 1;
    }

    method FetchCoins(txid: TxId) returns (r: Option<Coins>)
      requires Stacked()
      modifies repr
      ensures Model() == Fetched(old(Model()), txid) && hasModifier == old(hasModifier)
      ensures r == Lookup(old(Model()), txid)
      decreases height, 0
    {
      if txid in cacheCoins {
        return Some(cacheCoins[txid].coins);
      }
      r := base.GetCoins(txid);
      if r == None {
        return;
      }
      cacheCoins := cacheCoins[txid := Entry(r.value, false, r.value.IsPruned())];
    }

    method HaveCoins(txid: TxId) returns (r: bool)
      requires Stacked() && Inv(Model())
      modifies repr
      ensures Model() == Fetched(old(Model()), txid)
      ensures r <==> Visible(old(Model()), txid).Some?
    {
      HaveCoinsIsExact(Model(), txid);
      var it := FetchCoins(txid);
      r := it.Some? && it.value.vout != [];
    }

    /** Hands out the entry for `txid`; only one modification is open at a time. */
    method ModifyCoins(txid: TxId) returns (coins: Coins)
      requires Stacked() && !hasModifier
      modifies repr
      ensures hasModifier && Model() == Opened(old(Model()), txid) && coins == cacheCoins[txid].coins
    {
      if txid !in cacheCoins {
        var found := base.GetCoins(txid);
        if found == None {
          cacheCoins := cacheCoins[txid := Entry(NO_COINS, false, true)];
        } else if found.value.IsPruned() {
          cacheCoins := cacheCoins[txid := Entry(found.value, false, true)];
        } else {
          cacheCoins := cacheCoins[txid := Entry(found.value, false, false)];
        }
      }
      cacheCoins := cacheCoins[txid := cacheCoins[txid].(isDirty := true)];
      hasModifier := true;
      coins := cacheCoins[txid].coins;
    }

    /** The destructor of the modifier, for a modification that left `coins` in the entry. */
    method EndModify(txid: TxId, coins: Coins)
      requires Stacked() && hasModifier && txid in cacheCoins
      modifies this
      ensures !hasModifier && Model() == Closed(old(Model()), txid, coins)
    {
      hasModifier := false;
      var tidy := Cleanup(coins);
      cacheCoins := cacheCoins[txid := cacheCoins[txid].(coins := tidy)];
      if cacheCoins[txid].isFresh && tidy.IsPruned() {
        cacheCoins := cacheCoins - {txid};
      }
      assert base.Model() == old(base.Model());
      assert Model().cache == Closed(old(Model()), txid, coins).cache;
    }

    method BatchWrite(mapCoins: CoinsMap)
      requires Stacked() && Inv(Model()) && EntriesOk(mapCoins, Model()) && !hasModifier
      modifies this
      ensures Model() == Written(old(Model()), mapCoins) && !hasModifier
    {
      hide Written;
      hide Inv;
      var left := mapCoins.Keys;
      ghost var was, below := cacheCoins, base.Model();
      NothingWritten(Layer(was, below), mapCoins - left);
      while left != {}
        invariant left <= mapCoins.Keys
        invariant forall id :: id in left ==> (id in cacheCoins <==> id in was) && (id in was ==> cacheCoins[id] == was[id])
        invariant Layer(cacheCoins, below) == Written(Layer(was, below), mapCoins - left)
        invariant !hasModifier
      {
        var id :| id in left;
        var e := mapCoins[id];
        ghost var now := cacheCoins;
        if e.isDirty {
          if id !in cacheCoins {
            if !e.coins.IsPruned() {
              assert e.isFresh by {
                assert EntryOk(mapCoins[id], old(Model()), id);
              }
              cacheCoins := cacheCoins[id := Entry(e.coins, true, true)];
            }
          } else {
            if cacheCoins[id].isFresh && e.coins.IsPruned() {
              cacheCoins := cacheCoins - {id};
            } else {
              cacheCoins := cacheCoins[id := cacheCoins[id].(coins := e.coins, isDirty := true)];
            }
          }
        }
        assert cacheCoins == WrittenEntry(now, id, e);
        WriteOneMore(was, below, mapCoins, left, id, now);
        left := left - {id};
      }
      assert mapCoins - left == mapCoins;
      assert base.Model() == below;
    }

    method Flush()
      requires Stacked() && Inv(Model()) && !hasModifier && (base.Cache? ==> !base.cache.hasModifier)
      modifies repr
      ensures Model() == Flushed(old(Model())) && !hasModifier
    {
      base.BatchWrite(cacheCoins);
      cacheCoins := map[];
    }
  }

  lemma NothingWritten(s: Stack, m: CoinsMap)
    requires m == map[]
    ensures Written(s, m) == s
  {}

  lemma StoreOneMore(was: map<TxId, Coins>, m: CoinsMap, left: set<TxId>, id: TxId, now: map<TxId, Coins>)
    requires left <= m.Keys && id in left
    requires Bottom(now) == Written(Bottom(was), m - left)
    ensures Bottom(if !m[id].isDirty then now else if m[id].coins.IsPruned() then now - {id} else now[id := m[id].coins])
            == Written(Bottom(was), m - (left - {id}))
  {
    var w := Written(Bottom(was), m - (left - {id})).store;
    var n := if !m[id].isDirty then now else if m[id].coins.IsPruned() then now - {id} else now[id := m[id].coins];
    forall x ensures (x in n <==> x in w) && (x in w ==> n[x] == w[x]) {
      assert x != id ==> (x in m - left <==> x in m - (left - {id}));
    }
    assert n == w;
  }

  lemma WriteOneMore(was: CoinsMap, below: Stack, m: CoinsMap, left: set<TxId>, id: TxId, now: CoinsMap)
    requires left <= m.Keys && id in left
    requires Layer(now, below) == Written(Layer(was, below), m - left)
    requires (id in now <==> id in was) && (id in was ==> now[id] == was[id])
    ensures Layer(WrittenEntry(now, id, m[id]), below) == Written(Layer(was, below), m - (left - {id}))
  {
    var w := Written(Layer(was, below), m - (left - {id})).cache;
    var n := WrittenEntry(now, id, m[id]);
    forall x ensures (x in n <==> x in w) && (x in w ==> n[x] == w[x]) {
      assert x != id ==> (x in m - left <==> x in m - (left - {id}));
    }
    assert n == w;
  }
}
