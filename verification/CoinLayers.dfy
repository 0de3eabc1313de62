/**
 The unspent-output cache as pure layers: a layer is a map of cached entries with
 DIRTY and FRESH flags, read on top of the coins its base shows. Every operation of
 the cache classes is specified by a function of this module, and the laws of the
 write-back scheme are proved here.
 */
module CoinLayers {

  datatype OutPoint = OutPoint(hash: nat, n: nat)

  type Script = seq<nat>

  const OP_RETURN: nat := 0x6a
  const MAX_SCRIPT_SIZE: nat := 10000

  predicate IsUnspendable(script: Script) {
    (|script| > 0 && script[0] == OP_RETURN) || |script| > MAX_SCRIPT_SIZE
  }

  datatype TxOut = TxOut(value: int, script: Script)

  /** A coin whose output has value -1 is spent (pruned). */
  datatype Coin = Coin(out: TxOut, coinBase: bool, height: nat)

  const SPENT: Coin := Coin(TxOut(-1, []), false, 0)

  predicate IsSpent(coin: Coin) { coin.out.value == -1 }

  datatype Entry = Entry(coin: Coin, isDirty: bool, isFresh: bool)

  type Layer = map<OutPoint, Entry>
  type Coins = map<OutPoint, Coin>

  /** The coins visible through a layer: its unspent entries, and the base where it has none. */
  function Overlay(layer: Layer, base: Coins): Coins {
    map o | o in layer.Keys + base.Keys && (o in layer ==> !IsSpent(layer[o].coin))
      :: if o in layer then layer[o].coin else base[o]
  }

  predicate Unspent(coins: Coins) {
    forall o :: o in coins ==> !IsSpent(coins[o])
  }

  /** What an entry promises about the base: FRESH, no unspent coin there; clean, the same coin. */
  predicate EntryOk(e: Entry, o: OutPoint, base: Coins) {
    && (e.isFresh ==> o !in base)
    && (!e.isDirty ==> if o in base then e.coin == base[o] else IsSpent(e.coin))
  }

  predicate LayerOk(layer: Layer, base: Coins) {
    Unspent(base) && forall o :: o in layer ==> EntryOk(layer[o], o, base)
  }

  // ---------------------------------------------------------------- operations on one layer

  /** FetchCoin: an absent entry is copied, clean, from the base. */
  function Fill(layer: Layer, base: Coins, o: OutPoint): Layer {
    if o in layer || o !in base then layer else layer[o := Entry(base[o], false, IsSpent(base[o]))]
  }

  /** AddCoin throws on a cached unspent coin unless overwriting is allowed. */
  predicate AddThrows(layer: Layer, o: OutPoint, coin: Coin, possibleOverwrite: bool) {
    && !IsUnspendable(coin.out.script)
    && !possibleOverwrite && o in layer && !IsSpent(layer[o].coin)
  }

  function Add(layer: Layer, o: OutPoint, coin: Coin, possibleOverwrite: bool): Layer
    requires !AddThrows(layer, o, coin, possibleOverwrite)
  {
    if IsUnspendable(coin.out.script) then layer else
      var was := if o in layer then layer[o] else Entry(SPENT, false, false);
      layer[o := Entry(coin, true, was.isFresh || (!possibleOverwrite && !was.isDirty))]
  }

  /** SpendCoin after its fetch: a FRESH entry disappears, any other is kept as a dirty spent one. */
  function Spend(layer: Layer, o: OutPoint): Layer {
    if o !in layer then layer
    else if layer[o].isFresh then layer - {o}
    else layer[o := Entry(SPENT, true, false)]
  }

  function Uncache(layer: Layer, o: OutPoint): Layer {
    if o in layer && !layer[o].isDirty && !layer[o].isFresh then layer - {o} else layer
  }

  /** BatchWrite of one dirty child entry over what this layer has for the same outpoint. */
  datatype Slot = Absent | Present(entry: Entry)

  function SlotOf(layer: Layer, o: OutPoint): Slot {
    if o in layer then Present(layer[o]) else Absent
  }

  predicate Misapplied(child: Entry, ours: Slot) {
    child.isDirty && child.isFresh && ours.Present? && !IsSpent(ours.entry.coin)
  }

  function MergeEntry(child: Entry, ours: Slot): Slot {
    if !child.isDirty then ours
    else match ours
      case Absent =>
        if child.isFresh && IsSpent(child.coin) then Absent
        else Present(Entry(child.coin, true, child.isFresh))
      case Present(e) =>
        if e.isFresh && IsSpent(child.coin) then Absent
        else Present(Entry(child.coin, true, e.isFresh))
  }

  function MergedAt(layer: Layer, child: Layer, o: OutPoint): Slot {
    if o in child then MergeEntry(child[o], SlotOf(layer, o)) else SlotOf(layer, o)
  }

  /** BatchWrite of a whole child; each outpoint is independent, so the order does not matter. */
  function Merge(layer: Layer, child: Layer): Layer {
    map o | o in layer.Keys + child.Keys && MergedAt(layer, child, o).Present?
      :: MergedAt(layer, child, o).entry
  }

  /** The database keeps unspent coins only: dirty entries are written or erased. */
  function Store(coins: Coins, child: Layer): Coins {
    map o | o in coins.Keys + child.Keys
            && (if o in child && child[o].isDirty then !IsSpent(child[o].coin) else o in coins)
      :: if o in child && child[o].isDirty then child[o].coin else coins[o]
  }

  // ---------------------------------------------------------------- laws

  predicate SameAt(v: Coins, w: Coins, o: OutPoint) {
    (o in v <==> o in w) && (o in v ==> v[o] == w[o])
  }

  lemma SameEverywhere(v: Coins, w: Coins)
    requires forall o :: SameAt(v, w, o)
    ensures v == w
  {
    assert forall o :: SameAt(v, w, o) ==> (o in v <==> o in w);
  }

  /** Changing one entry: only that entry's promise is at stake and only that coin can change. */
  lemma ChangeOne(layer: Layer, layer': Layer, base: Coins, o: OutPoint)
    requires LayerOk(layer, base)
    requires forall p :: p != o ==> SlotOf(layer', p) == SlotOf(layer, p)
    requires o in layer' ==> EntryOk(layer'[o], o, base)
    ensures LayerOk(layer', base)
    ensures forall p :: p != o ==> SameAt(Overlay(layer', base), Overlay(layer, base), p)
  {
    forall p
      ensures p in layer' ==> EntryOk(layer'[p], p, base)
      ensures p != o ==> SameAt(Overlay(layer', base), Overlay(layer, base), p)
    {
      assert p != o ==> SlotOf(layer', p) == SlotOf(layer, p);
    }
  }

  lemma FillLaw(layer: Layer, base: Coins, o: OutPoint)
    requires LayerOk(layer, base)
    ensures LayerOk(Fill(layer, base, o), base)
    ensures Overlay(Fill(layer, base, o), base) == Overlay(layer, base)
  {
  }

  lemma UncacheLaw(layer: Layer, base: Coins, o: OutPoint)
    requires LayerOk(layer, base)
    ensures LayerOk(Uncache(layer, o), base)
    ensures Overlay(Uncache(layer, o), base) == Overlay(layer, base)
  {
  }

  /** The caller's promise: no unspent coin is visible unless overwriting is declared possible. */
  predicate AddPromise(view: Coins, o: OutPoint, possibleOverwrite: bool) {
    possibleOverwrite || o !in view
  }

  lemma AddLaw(layer: Layer, base: Coins, o: OutPoint, coin: Coin, possibleOverwrite: bool)
    requires LayerOk(layer, base) && !IsSpent(coin)
    requires IsUnspendable(coin.out.script) || AddPromise(Overlay(layer, base), o, possibleOverwrite)
    ensures !AddThrows(layer, o, coin, possibleOverwrite)
    ensures LayerOk(Add(layer, o, coin, possibleOverwrite), base)
    ensures Overlay(Add(layer, o, coin, possibleOverwrite), base)
         == if IsUnspendable(coin.out.script) then Overlay(layer, base)
            else Overlay(layer, base)[o := coin]
  {
    var view, after := Overlay(layer, base), Add(layer, o, coin, possibleOverwrite);
    if !IsUnspendable(coin.out.script) {
      assert o in layer ==> EntryOk(layer[o], o, base);
      ChangeOne(layer, after, base, o);
      var wanted := view[o := coin];
      forall p
        ensures SameAt(Overlay(after, base), wanted, p)
      {
        assert p != o ==> SameAt(Overlay(after, base), view, p);
      }
      SameEverywhere(Overlay(after, base), wanted);
    }
  }

  /** The promise is exactly what keeps a call that does not throw from corrupting the flags. */
  lemma AddPromiseNeeded(layer: Layer, base: Coins, o: OutPoint, coin: Coin, possibleOverwrite: bool)
    requires LayerOk(layer, base) && !IsSpent(coin) && !IsUnspendable(coin.out.script)
    requires !AddThrows(layer, o, coin, possibleOverwrite)
    ensures LayerOk(Add(layer, o, coin, possibleOverwrite), base)
       <==> AddPromise(Overlay(layer, base), o, possibleOverwrite)
  {
    if AddPromise(Overlay(layer, base), o, possibleOverwrite) {
      AddLaw(layer, base, o, coin, possibleOverwrite);
    } else {
      var after := Add(layer, o, coin, possibleOverwrite);
      assert o !in layer && o in base;
      assert !EntryOk(after[o], o, base);
    }
  }

  lemma SpendLaw(layer: Layer, base: Coins, o: OutPoint)
    requires LayerOk(layer, base)
    ensures LayerOk(Spend(layer, o), base)
    ensures Overlay(Spend(layer, o), base) == if o in layer then Overlay(layer, base) - {o}
                                              else Overlay(layer, base)
  {
    if o in layer {
      var view, after := Overlay(layer, base), Spend(layer, o);
      assert EntryOk(layer[o], o, base);
      ChangeOne(layer, after, base, o);
      forall p
        ensures SameAt(Overlay(after, base), view - {o}, p)
      {
        assert p != o ==> SameAt(Overlay(after, base), view, p);
      }
      SameEverywhere(Overlay(after, base), view - {o});
    }
  }

  /**
   SpendCoin as a whole removes one coin and hands it out. Without an unspent coin it has no
   visible effect, yet it reports success exactly when a spent entry happens to be cached.
   */
  lemma SpendCoinLaw(layer: Layer, base: Coins, o: OutPoint)
    requires LayerOk(layer, base)
    ensures LayerOk(Spend(Fill(layer, base, o), o), base)
    ensures Overlay(Spend(Fill(layer, base, o), o), base) == Overlay(layer, base) - {o}
    ensures o in Overlay(layer, base) ==>
      o in Fill(layer, base, o) && Fill(layer, base, o)[o].coin == Overlay(layer, base)[o]
    ensures o !in Overlay(layer, base) ==> (o in Fill(layer, base, o) <==> o in layer)
  {
    FillLaw(layer, base, o);
    SpendLaw(Fill(layer, base, o), base, o);
    if o !in Fill(layer, base, o) {
      assert Overlay(layer, base) == Overlay(layer, base) - {o};
    }
  }

  /** Flushing over another layer: nothing throws, and the base now shows what the child showed. */
  lemma MergeLaw(child: Layer, layer: Layer, base: Coins)
    requires LayerOk(layer, base) && LayerOk(child, Overlay(layer, base))
    ensures forall o :: o in child ==> !Misapplied(child[o], SlotOf(layer, o))
    ensures LayerOk(Merge(layer, child), base)
    ensures Overlay(Merge(layer, child), base) == Overlay(child, Overlay(layer, base))
  {
    var merged, view := Merge(layer, child), Overlay(layer, base);
    forall o
      ensures o in merged ==> EntryOk(merged[o], o, base)
      ensures o in Overlay(merged, base) <==> o in Overlay(child, view)
      ensures o in Overlay(merged, base) ==> Overlay(merged, base)[o] == Overlay(child, view)[o]
    {
      MergeAt(child, layer, base, o);
    }
  }

  lemma MergeAt(child: Layer, layer: Layer, base: Coins, o: OutPoint)
    requires LayerOk(layer, base) && LayerOk(child, Overlay(layer, base))
    ensures
      var merged, view := Merge(layer, child), Overlay(layer, base);
      && (o in merged ==> EntryOk(merged[o], o, base))
      && (o in Overlay(merged, base) <==> o in Overlay(child, view))
      && (o in Overlay(merged, base) ==> Overlay(merged, base)[o] == Overlay(child, view)[o])
  {
    var merged := Merge(layer, child);
    assert SlotOf(merged, o) == MergedAt(layer, child, o);
    if o in child {
      assert EntryOk(child[o], o, Overlay(layer, base));
    }
    if o in layer {
      assert EntryOk(layer[o], o, base);
    }
  }

  lemma StoreLaw(child: Layer, coins: Coins)
    requires LayerOk(child, coins)
    ensures Unspent(Store(coins, child))
    ensures Store(coins, child) == Overlay(child, coins)
  {
    var stored, view := Store(coins, child), Overlay(child, coins);
    forall o
      ensures o in stored <==> o in view
      ensures o in stored ==> stored[o] == view[o]
    {
      if o in child {
        assert EntryOk(child[o], o, coins);
      }
    }
    assert stored.Keys == view.Keys;
  }

  // ---------------------------------------------------------------- what caching is for

  /** A fetched coin stays cached until it is uncached, which undoes the fetch; changed entries stay. */
  lemma FetchUncache(layer: Layer, base: Coins, o: OutPoint)
    requires LayerOk(layer, base)
    ensures o in base ==> o in Fill(layer, base, o)
    ensures o !in layer ==> Uncache(Fill(layer, base, o), o) == layer
    ensures o in layer && layer[o].isDirty ==> Uncache(layer, o) == layer
  {
    if o !in layer && o in base {
      assert Fill(layer, base, o) - {o} == layer;
    }
  }

  /** A coin created and spent between two flushes leaves nothing to write. */
  lemma ShortLived(layer: Layer, o: OutPoint, coin: Coin)
    requires o !in layer && !IsUnspendable(coin.out.script)
    ensures o in Add(layer, o, coin, false) && Spend(Add(layer, o, coin, false), o) == layer
  {
    assert layer[o := Entry(coin, true, true)] - {o} == layer;
  }

  /** Nor does one that is flushed into a cache that has not written it yet and spent there, or above it. */
  lemma SpentBeforeWritten(layer: Layer, child: Layer, o: OutPoint, coin: Coin)
    requires o !in layer && o !in child && !IsUnspendable(coin.out.script) && !IsSpent(coin)
    ensures
      var created := Merge(layer, Add(child, o, coin, false));
      && o in created && created[o].coin == coin
      && o !in Spend(created, o)
      && o !in Merge(created, map[o := Entry(SPENT, true, false)])
  {
    var above := Add(child, o, coin, false);
    assert MergedAt(layer, above, o) == Present(Entry(coin, true, true));
    var created := Merge(layer, above);
    assert MergedAt(created, map[o := Entry(SPENT, true, false)], o) == Absent;
  }
}
