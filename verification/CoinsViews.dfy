/**
 The cache objects themselves: a database view and write-back caches linked by their `base`
 pointers. Each method is proved against the stack operation of the same name, so the
 refinement proved for stacks holds of the objects.
 */
module CoinsViews {
  import opened CoinLayers
  import opened CoinStack

  class CoinsViewDB {
    var coins: Coins

    constructor ()
      ensures coins == map[]
    {
      coins := map[];
    }

    method GetCoin(o: OutPoint) returns (found: bool, coin: Coin)
      ensures found == (o in coins)
      ensures found ==> coin == coins[o]
    {
      found, coin := o in coins, SPENT;
      if found {
        coin := coins[o];
      }
    }

    method BatchWrite(mapCoins: Layer)
      modifies this
      ensures coins == Store(old(coins), mapCoins)
    {
      var todo := mapCoins.Keys;
      while todo != {}
        invariant todo <= mapCoins.Keys
        invariant forall o :: o in todo || o !in mapCoins || !mapCoins[o].isDirty ==>
          SameAt(coins, old(coins), o)
        invariant forall o :: o in mapCoins && o !in todo && mapCoins[o].isDirty ==>
          if IsSpent(mapCoins[o].coin) then o !in coins else o in coins && coins[o] == mapCoins[o].coin
      {
        var o :| o in todo;
        var it := mapCoins[o];
        if it.isDirty {
          if IsSpent(it.coin) {
            coins := coins - {o};
          } else {
            coins := coins[o := it.coin];
          }
        }
        todo := todo - {o};
      }
      SameEverywhere(coins, Store(old(coins), mapCoins));
    }
  }

  class CoinsViewCache {
    const db: CoinsViewDB
    /** The cache below, or null when this one is read directly on top of `db`. */
    const base: CoinsViewCache?
    ghost const depth: nat
    ghost const objects: set<object>
    var cacheCoins: Layer

    /** The immutable shape of the stack below (and including) this cache. */
    ghost predicate Linked()
      decreases depth
    {
      && this in objects && db in objects
      && (base == null ==> objects == {this, db})
      && (base != null ==>
            && base.depth < depth && base.db == db
            && this !in base.objects && objects == base.objects + {this}
            && base.Linked())
    }

    ghost function Base(): Stack
      requires Linked()
      reads objects
      decreases depth, 0
    {
      if base == null then Db(db.coins) else base.Model()
    }

    ghost function Model(): Stack
      requires Linked()
      reads objects
      decreases depth, 1
    {
      Cache(cacheCoins, Base())
    }

    ghost predicate Valid()
      reads objects
    {
      Linked() && Ok(Model())
    }

    constructor OverDb(db: CoinsViewDB)
      requires Unspent(db.coins)
      ensures Valid() && fresh(this) && this.db == db && objects == {this, db}
      ensures Model() == Cache(map[], Db(db.coins))
    {
      this.db, base := db, null;
      depth, objects := 0, {this, db};
      cacheCoins := map[];
      new;
      EmptyLayer(db.coins);
    }

    constructor OverCache(baseIn: CoinsViewCache)
      requires baseIn.Valid()
      ensures Valid() && fresh(this) && base == baseIn && objects == baseIn.objects + {this}
      ensures Model() == Cache(map[], old(baseIn.Model()))
    {
      db, base := baseIn.db, baseIn;
      depth, objects := baseIn.depth + 1, baseIn.objects + {this};
      cacheCoins := map[];
      new;
      ViewsUnspent(baseIn.Model());
      EmptyLayer(View(baseIn.Model()));
    }

    /** Ensures a cached entry if the coin is known below; may fill the caches below too. */
    method FetchCoin(o: OutPoint) returns (found: bool)
      requires Valid()
      modifies objects
      ensures Valid() && Model() == Fetch(old(Model()), o)
      ensures found == (o in cacheCoins)
      decreases depth, 0
    {
      FetchRefines(Model(), o);
      if o in cacheCoins {
        return true;
      }
      var have, tmp;
      if base == null {
        have, tmp := db.GetCoin(o);
      } else {
        assert base.Linked() && Base() == base.Model();
        have, tmp := base.GetCoin(o);
        assert Base() == base.Model();
      }
      if !have {
        return false;
      }
      // An empty entry below would count as FRESH here.
      cacheCoins := cacheCoins[o := Entry(tmp, false, IsSpent(tmp))];
      assert Base() == Fetch(old(Base()), o);
      return true;
    }

    method GetCoin(o: OutPoint) returns (ok: bool, coin: Coin)
      requires Valid()
      modifies objects
      ensures Valid() && Model() == Fetch(old(Model()), o)
      ensures ok == (o in View(old(Model())))
      ensures ok ==> coin == View(old(Model()))[o]
      decreases depth, 1
    {
      FetchRefines(Model(), o);
      ViewIsFirst(Model());
      var found := FetchCoin(o);
      ViewIsFirst(Model());
      ok, coin := false, SPENT;
      if found {
        coin := cacheCoins[o].coin;
        ok := !IsSpent(coin);
      }
    }

    method HaveCoin(o: OutPoint) returns (have: bool)
      requires Valid()
      modifies objects
      ensures Valid() && Model() == Fetch(old(Model()), o)
      ensures have == (o in View(old(Model())))
    {
      FetchRefines(Model(), o);
      ViewIsFirst(Model());
      var found := FetchCoin(o);
      ViewIsFirst(Model());
      have := found && !IsSpent(cacheCoins[o].coin);
    }

    /** `threw` is the logic_error for replacing a cached unspent coin. */
    method AddCoin(o: OutPoint, coin: Coin, possibleOverwrite: bool) returns (threw: bool)
      requires Linked() && !IsSpent(coin)
      modifies this
      ensures threw == AddThrows(old(cacheCoins), o, coin, possibleOverwrite)
      ensures threw ==> Model() == old(Model())
      ensures !threw ==> Model() == Call(old(Model()), CoinStack.AddCoin(o, coin, possibleOverwrite))
      ensures old(Valid() && Allowed(View(Model()), CoinStack.AddCoin(o, coin, possibleOverwrite)))
          ==> !threw && Valid()
    {
      if Ok(Model()) && Allowed(View(Model()), CoinStack.AddCoin(o, coin, possibleOverwrite)) {
        AddRefines(Model(), o, coin, possibleOverwrite);
      }
      if IsUnspendable(coin.out.script) {
        return false;
      }
      var it := if o in cacheCoins then cacheCoins[o] else Entry(SPENT, false, false);
      var isFresh := false;
      if !possibleOverwrite {
        if !IsSpent(it.coin) {
          return true;
        }
        isFresh := !it.isDirty;
      }
      cacheCoins := cacheCoins[o := Entry(coin, true, it.isFresh || isFresh)];
      return false;
    }

    /** `moved` is the coin handed out, if an entry was found. */
    method SpendCoin(o: OutPoint) returns (found: bool, moved: Coin)
      requires Valid()
      modifies objects
      ensures Valid() && Model() == Call(old(Model()), CoinStack.SpendCoin(o))
      ensures View(Model()) == View(old(Model())) - {o}
      ensures o in View(old(Model())) ==> found && moved == View(old(Model()))[o]
      ensures o !in View(old(Model())) ==> (found <==> o in old(cacheCoins))
    {
      ghost var before := Model();
      FetchRefines(before, o);
      SpendRefines(before, o);
      SpendCoinLaw(cacheCoins, View(Base()), o);
      ViewIsFirst(Call(before, CoinStack.SpendCoin(o)));
      found := FetchCoin(o);
      moved := SPENT;
      if !found {
        return;
      }
      moved := cacheCoins[o].coin;
      if cacheCoins[o].isFresh {
        cacheCoins := cacheCoins - {o};
      } else {
        cacheCoins := cacheCoins[o := Entry(SPENT, true, false)];
      }
    }

    method Uncache(o: OutPoint)
      requires Valid()
      modifies this
      ensures Valid() && Model() == Call(old(Model()), Evict(o))
    {
      EvictRefines(Model(), o);
      if o in cacheCoins && !cacheCoins[o].isDirty && !cacheCoins[o].isFresh {
        cacheCoins := cacheCoins - {o};
      }
      assert Base() == old(Base());
      assert cacheCoins == CoinLayers.Uncache(old(cacheCoins), o);
    }

    /** Takes over a child's modifications, in any order; `threw` is the misapplied-FRESH error. */
    method BatchWrite(mapCoins: Layer) returns (threw: bool)
      requires Linked()
      modifies this
      ensures threw == WriteThrows(old(Model()), mapCoins)
      ensures !threw ==> Model() == Write(old(Model()), mapCoins)
    {
      threw := false;
      var todo := mapCoins.Keys;
      while todo != {}
        invariant todo <= mapCoins.Keys
        invariant forall o :: o in todo ==> SlotOf(cacheCoins, o) == SlotOf(old(cacheCoins), o)
        invariant forall o :: o !in todo ==>
          SlotOf(cacheCoins, o) == MergedAt(old(cacheCoins), mapCoins, o)
        invariant forall o :: o in mapCoins && o !in todo ==>
          !Misapplied(mapCoins[o], SlotOf(old(cacheCoins), o))
      {
        var o :| o in todo;
        assert SlotOf(cacheCoins, o) == SlotOf(old(cacheCoins), o);
        var it := mapCoins[o];
        if it.isDirty {
          if o !in cacheCoins {
            if !(it.isFresh && IsSpent(it.coin)) {
              cacheCoins := cacheCoins[o := Entry(it.coin, true, it.isFresh)];
            }
          } else {
            if it.isFresh && !IsSpent(cacheCoins[o].coin) {
              assert Misapplied(mapCoins[o], SlotOf(old(cacheCoins), o));
              return true;
            }
            if cacheCoins[o].isFresh && IsSpent(it.coin) {
              cacheCoins := cacheCoins - {o};
            } else {
              cacheCoins := cacheCoins[o := Entry(it.coin, true, cacheCoins[o].isFresh)];
            }
          }
        }
        todo := todo - {o};
      }
      MergeUnique(cacheCoins, old(cacheCoins), mapCoins);
    }

    /** Pushes everything to the base, which afterwards shows what this cache shows. */
    method Flush()
      requires Valid()
      modifies objects
      ensures Valid() && Model() == Call(old(Model()), CoinStack.Flush)
      ensures cacheCoins == map[] && View(Base()) == View(Model()) == View(old(Model()))
    {
      ghost var before := Model();
      assert before == Cache(cacheCoins, Base());
      FlushRefines(before);
      WriteRefines(before.base, before.layer);
      ViewIsFirst(Call(before, CoinStack.Flush));
      ViewIsFirst(before);
      if base == null {
        assert Base() == Db(db.coins);
        db.BatchWrite(cacheCoins);
        assert Base() == Db(db.coins);
        assert Base() == Write(before.base, before.layer);
      } else {
        assert base.Linked() && Base() == base.Model();
        var threw := base.BatchWrite(cacheCoins);
        assert Base() == base.Model();
      }
      cacheCoins := map[];
    }
  }

  /** The view after the first `k` outputs of a transaction have been added. */
  function AddOutputs(view: Coins, txid: nat, vout: seq<TxOut>, coinBase: bool, height: nat, k: nat): Coins
    requires k <= |vout|
  {
    if k == 0 then view else
      var before := AddOutputs(view, txid, vout, coinBase, height, k - 1);
      if IsUnspendable(vout[k - 1].script) then before
      else before[OutPoint(txid, k - 1) := Coin(vout[k - 1], coinBase, height)]
  }

  /** Exactly the spendable outputs appear, each with its own coin; nothing else changes. */
  lemma {:induction false} AddOutputsAt(view: Coins, txid: nat, vout: seq<TxOut>,
                                        coinBase: bool, height: nat, k: nat, o: OutPoint)
    requires k <= |vout|
    ensures
      var after := AddOutputs(view, txid, vout, coinBase, height, k);
      if o.hash == txid && o.n < k && !IsUnspendable(vout[o.n].script)
      then o in after && after[o] == Coin(vout[o.n], coinBase, height)
      else SameAt(after, view, o)
  {
    if k > 0 {
      AddOutputsAt(view, txid, vout, coinBase, height, k - 1, o);
    }
  }

  /** The caller's promise without `check`: only a coinbase may repeat outputs still unspent. */
  predicate OutputsPromise(view: Coins, txid: nat, vout: seq<TxOut>, coinBase: bool) {
    coinBase || forall i :: 0 <= i < |vout| && !IsUnspendable(vout[i].script) ==>
                  OutPoint(txid, i) !in view
  }

  /** Adds the outputs of a transaction; with `check` the overwrite flag is looked up. */
  method AddCoins(cache: CoinsViewCache, txid: nat, vout: seq<TxOut>, coinBase: bool,
                  height: nat, check: bool)
    requires cache.Valid()
    requires forall i :: 0 <= i < |vout| ==> vout[i].value != -1
    requires check || OutputsPromise(View(cache.Model()), txid, vout, coinBase)
    modifies cache.objects
    ensures cache.Valid()
    ensures View(cache.Model())
         == AddOutputs(old(View(cache.Model())), txid, vout, coinBase, height, |vout|)
  {
    ghost var view := View(cache.Model());
    for i := 0 to |vout|
      invariant cache.Valid()
      invariant View(cache.Model()) == AddOutputs(view, txid, vout, coinBase, height, i)
    {
      var o := OutPoint(txid, i);
      AddOutputsAt(view, txid, vout, coinBase, height, i, o);
      var overwrite := coinBase;
      if check {
        overwrite := LookUp(cache, o);
      }
      AddOne(cache, o, Coin(vout[i], coinBase, height), overwrite);
    }
  }

  method LookUp(cache: CoinsViewCache, o: OutPoint) returns (have: bool)
    requires cache.Valid()
    modifies cache.objects
    ensures cache.Valid() && View(cache.Model()) == old(View(cache.Model()))
    ensures have == (o in View(cache.Model()))
  {
    FetchRefines(cache.Model(), o);
    ViewIsFirst(cache.Model());
    have := cache.HaveCoin(o);
    ViewIsFirst(cache.Model());
  }

  method AddOne(cache: CoinsViewCache, o: OutPoint, coin: Coin, overwrite: bool)
    requires cache.Valid() && Allowed(View(cache.Model()), CoinStack.AddCoin(o, coin, overwrite))
    modifies cache.objects
    ensures cache.Valid()
    ensures View(cache.Model()) == old(Spec(View(cache.Model()), CoinStack.AddCoin(o, coin, overwrite)))
  {
    AddRefines(cache.Model(), o, coin, overwrite);
    var threw := cache.AddCoin(o, coin, overwrite);
    ViewIsFirst(cache.Model());
  }

  lemma MergeUnique(layer: Layer, ours: Layer, child: Layer)
    requires forall o :: SlotOf(layer, o) == MergedAt(ours, child, o)
    ensures layer == Merge(ours, child)
  {
    forall o
      ensures o in layer <==> o in Merge(ours, child)
      ensures o in layer ==> layer[o] == Merge(ours, child)[o]
    {
      assert SlotOf(layer, o) == MergedAt(ours, child, o);
    }
    assert layer.Keys == Merge(ours, child).Keys;
  }
}
