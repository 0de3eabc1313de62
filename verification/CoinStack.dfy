/**
 A stack of coin caches over the database, as a value, and its refinement of plain maps:
 every run of fetches, additions, spends, evictions, flushes and layer creation shows at
 each level exactly the coins a list of plain maps would.
 */
module CoinStack {
  import opened CoinLayers

  datatype Stack = Db(coins: Coins) | Cache(layer: Layer, base: Stack)

  function View(st: Stack): Coins {
    match st
    case Db(coins) => coins
    case Cache(layer, base) => Overlay(layer, View(base))
  }

  /** The flags of every layer tell the truth about the view below it. */
  predicate Ok(st: Stack) {
    match st
    case Db(coins) => Unspent(coins)
    case Cache(layer, base) => LayerOk(layer, View(base)) && Ok(base)
  }

  function Layers(st: Stack): nat {
    if st.Db? then 0 else 1 + Layers(st.base)
  }

  /** What each level shows, topmost first; the last one is the database. */
  function Views(st: Stack): (vs: seq<Coins>)
    ensures |vs| == Layers(st) + 1
  {
    [View(st)] + if st.Db? then [] else Views(st.base)
  }

  // ---------------------------------------------------------------- operations

  /** FetchCoin: a miss asks the view below for the coin, which may fill its cache in turn. */
  function Fetch(st: Stack, o: OutPoint): (st': Stack)
    ensures Layers(st') == Layers(st)
  {
    match st
    case Db(_) => st
    case Cache(layer, base) =>
      if o in layer then st else
        var base' := Fetch(base, o);
        Cache(Fill(layer, View(base'), o), base')
  }

  /** BatchWrite into a view. */
  function Write(st: Stack, child: Layer): (st': Stack)
    ensures Layers(st') == Layers(st)
  {
    match st
    case Db(coins) => Db(Store(coins, child))
    case Cache(layer, base) => Cache(Merge(layer, child), base)
  }

  /** The `logic_error` of BatchWrite. */
  predicate WriteThrows(st: Stack, child: Layer) {
    st.Cache? && exists o :: o in child && Misapplied(child[o], SlotOf(st.layer, o))
  }

  datatype Op =
    | FetchCoin(o: OutPoint)
    | Evict(o: OutPoint)
    | Flush
    | AddCoin(o: OutPoint, coin: Coin, possibleOverwrite: bool)
    | SpendCoin(o: OutPoint)

  predicate Throws(st: Stack, op: Op)
    requires st.Cache?
  {
    match op
    case AddCoin(o, coin, ow) => AddThrows(st.layer, o, coin, ow)
    case Flush => WriteThrows(st.base, st.layer)
    case _ => false
  }

  /** One call on the topmost cache. */
  function Call(st: Stack, op: Op): (st': Stack)
    requires st.Cache? && !Throws(st, op)
    ensures Layers(st') == Layers(st)
  {
    match op
    case FetchCoin(o) => Fetch(st, o)
    case Evict(o) => Cache(Uncache(st.layer, o), st.base)
    case Flush => Cache(map[], Write(st.base, st.layer))
    case AddCoin(o, coin, ow) => Cache(Add(st.layer, o, coin, ow), st.base)
    case SpendCoin(o) =>
      var fetched := Fetch(st, o);
      Cache(Spend(fetched.layer, o), fetched.base)
  }

  // ---------------------------------------------------------------- one call

  /** The plain map a cache stands for, and the one below it, after a call. */
  function Spec(view: Coins, op: Op): Coins {
    match op
    case AddCoin(o, coin, _) => if IsUnspendable(coin.out.script) then view else view[o := coin]
    case SpendCoin(o) => view - {o}
    case _ => view
  }

  /** What the caller promises: coins added are unspent and do not silently replace one. */
  predicate Allowed(view: Coins, op: Op) {
    op.AddCoin? ==>
      && !IsSpent(op.coin)
      && (IsUnspendable(op.coin.out.script) || AddPromise(view, op.o, op.possibleOverwrite))
  }

  lemma {:induction false} FetchRefines(st: Stack, o: OutPoint)
    requires Ok(st)
    ensures Ok(Fetch(st, o)) && Views(Fetch(st, o)) == Views(st)
    ensures st.Cache? ==> Fetch(st, o).layer == Fill(st.layer, View(st.base), o)
  {
    hide Fill, Overlay, LayerOk;
    if st.Cache? && o !in st.layer {
      FetchRefines(st.base, o);
      ViewIsFirst(st.base);
      ViewIsFirst(Fetch(st.base, o));
      FillLaw(st.layer, View(st.base), o);
    } else if st.Cache? {
      FillKeeps(st.layer, View(st.base), o);
    }
  }

  lemma ViewIsFirst(st: Stack)
    ensures View(st) == Views(st)[0]
  {
  }

  lemma FillKeeps(layer: Layer, base: Coins, o: OutPoint)
    requires o in layer
    ensures Fill(layer, base, o) == layer
  {
  }

  lemma {:induction false} ViewsUnspent(st: Stack)
    requires Ok(st)
    ensures Unspent(View(st))
  {
    if st.Cache? {
      ViewsUnspent(st.base);
    }
  }

  lemma WriteRefines(st: Stack, child: Layer)
    requires Ok(st) && LayerOk(child, View(st))
    ensures !WriteThrows(st, child)
    ensures Ok(Write(st, child)) && View(Write(st, child)) == Overlay(child, View(st))
    ensures Views(Write(st, child))[1..] == Views(st)[1..]
  {
    hide Overlay, LayerOk, Merge, Store;
    match st
    case Db(coins) => StoreLaw(child, coins);
    case Cache(layer, base) => MergeLaw(child, layer, View(base));
  }

  lemma EmptyLayer(base: Coins)
    requires Unspent(base)
    ensures LayerOk(map[], base) && Overlay(map[], base) == base
  {
  }

  lemma FlushRefines(st: Stack)
    requires Ok(st) && st.Cache?
    ensures !Throws(st, Flush)
    ensures Ok(Call(st, Flush))
    ensures Views(Call(st, Flush)) == Views(st)[1 := View(st)]
  {
    hide Overlay, LayerOk, Unspent, Write, WriteThrows;
    var base' := Write(st.base, st.layer);
    WriteRefines(st.base, st.layer);
    ViewsUnspent(base');
    EmptyLayer(View(base'));
    assert Views(st) == [View(st)] + Views(st.base);
    ViewIsFirst(base');
    assert Views(base') == [View(st)] + Views(st.base)[1..];
  }

  lemma SpendRefines(st: Stack, o: OutPoint)
    requires Ok(st) && st.Cache?
    ensures Ok(Call(st, SpendCoin(o)))
    ensures Views(Call(st, SpendCoin(o))) == Views(st)[0 := View(st) - {o}]
  {
    hide Overlay, LayerOk, Fetch, Spend, Fill, Views;
    var fetched := Fetch(st, o);
    FetchRefines(st, o);
    SecondView(st);
    SecondView(fetched);
    SpendCoinLaw(st.layer, View(st.base), o);
    ReplaceLayer(fetched, Spend(fetched.layer, o));
  }

  lemma SecondView(st: Stack)
    requires st.Cache?
    ensures View(st.base) == Views(st)[1]
  {
    hide Overlay;
  }

  /** A sound replacement of the topmost layer changes the topmost view only. */
  lemma ReplaceLayer(st: Stack, layer: Layer)
    requires Ok(st) && st.Cache? && LayerOk(layer, View(st.base))
    ensures Ok(Cache(layer, st.base))
    ensures Views(Cache(layer, st.base)) == Views(st)[0 := Overlay(layer, View(st.base))]
  {
    hide Overlay, LayerOk;
  }

  lemma AddRefines(st: Stack, o: OutPoint, coin: Coin, possibleOverwrite: bool)
    requires Ok(st) && st.Cache? && Allowed(View(st), AddCoin(o, coin, possibleOverwrite))
    ensures !Throws(st, AddCoin(o, coin, possibleOverwrite))
    ensures
      var op := AddCoin(o, coin, possibleOverwrite);
      Ok(Call(st, op)) && Views(Call(st, op)) == Views(st)[0 := Spec(View(st), op)]
  {
    hide Overlay, LayerOk, Add, AddThrows, Views;
    AddLaw(st.layer, View(st.base), o, coin, possibleOverwrite);
    ReplaceLayer(st, Add(st.layer, o, coin, possibleOverwrite));
  }

  lemma EvictRefines(st: Stack, o: OutPoint)
    requires Ok(st) && st.Cache?
    ensures Ok(Call(st, Evict(o))) && Views(Call(st, Evict(o))) == Views(st)
  {
    hide Overlay, LayerOk, Uncache;
    UncacheLaw(st.layer, View(st.base), o);
  }

  /** The list of plain maps after one call on the topmost of them. */
  function SpecCall(views: seq<Coins>, op: Op): (r: seq<Coins>)
    requires |views| >= 2
    ensures |r| == |views|
  {
    if op.Flush? then views[1 := views[0]] else views[0 := Spec(views[0], op)]
  }

  /** Nothing throws, the flags stay truthful, and only the intended view changes. */
  lemma CallRefines(st: Stack, op: Op)
    requires Ok(st) && st.Cache? && Allowed(View(st), op)
    ensures !Throws(st, op)
    ensures Ok(Call(st, op)) && Views(Call(st, op)) == SpecCall(Views(st), op)
  {
    hide Overlay, LayerOk, Ok, Call, Allowed;
    ViewIsFirst(st);
    assert |Views(st)| >= 2;
    match op
    case FetchCoin(o) => FetchCallRefines(st, o);
    case Evict(o) => EvictRefines(st, o);
    case Flush => FlushRefines(st);
    case AddCoin(o, coin, ow) => AddRefines(st, o, coin, ow);
    case SpendCoin(o) => SpendRefines(st, o);
  }

  lemma FetchCallRefines(st: Stack, o: OutPoint)
    requires Ok(st) && st.Cache?
    ensures Ok(Call(st, FetchCoin(o))) && Views(Call(st, FetchCoin(o))) == Views(st)
  {
    hide Overlay, LayerOk, Fetch;
    FetchRefines(st, o);
  }

  // ---------------------------------------------------------------- whole runs

  /** A call on the cache `k` levels below the top, or a change of the stack's height. */
  datatype Step = At(k: nat, op: Op) | NewLayer | DropLayer

  /** Coins are added and spent only through the topmost cache. */
  predicate Admissible(views: seq<Coins>, step: Step) {
    match step
    case At(k, op) =>
      && k + 1 < |views|
      && (k > 0 ==> op.FetchCoin? || op.Evict? || op.Flush?)
      && Allowed(views[k], op)
    case NewLayer => |views| > 0
    case DropLayer => |views| > 1
  }

  function SpecStep(views: seq<Coins>, step: Step): seq<Coins>
    requires Admissible(views, step)
  {
    match step
    case At(k, op) => views[..k] + SpecCall(views[k..], op)
    case NewLayer => [views[0]] + views
    case DropLayer => views[1..]
  }

  predicate StepThrows(st: Stack, k: nat, op: Op)
    requires k < Layers(st)
  {
    if k == 0 then Throws(st, op) else StepThrows(st.base, k - 1, op)
  }

  function CallAt(st: Stack, k: nat, op: Op): Stack
    requires k < Layers(st) && !StepThrows(st, k, op)
  {
    if k == 0 then Call(st, op) else Cache(st.layer, CallAt(st.base, k - 1, op))
  }

  predicate CanTake(st: Stack, step: Step) {
    match step
    case At(k, op) => k < Layers(st) && !StepThrows(st, k, op)
    case NewLayer => true
    case DropLayer => st.Cache?
  }

  function Take(st: Stack, step: Step): Stack
    requires CanTake(st, step)
  {
    match step
    case At(k, op) => CallAt(st, k, op)
    case NewLayer => Cache(map[], st)
    case DropLayer => st.base
  }

  /** A call below the top: the level read through it shows the same coins as before. */
  lemma {:induction false} CallAtRefines(st: Stack, k: nat, op: Op)
    requires Ok(st) && Admissible(Views(st), At(k, op))
    ensures k < Layers(st) && !StepThrows(st, k, op)
    ensures Ok(CallAt(st, k, op))
    ensures Views(CallAt(st, k, op)) == SpecStep(Views(st), At(k, op))
    ensures !op.AddCoin? && !op.SpendCoin? ==> View(CallAt(st, k, op)) == View(st)
  {
    hide Overlay, LayerOk, Call, Throws, Allowed;
    ViewIsFirst(st);
    if k == 0 {
      CallRefines(st, op);
      assert Views(st)[0..] == Views(st);
      ViewIsFirst(Call(st, op));
    } else {
      var views := Views(st.base);
      SpecBelow(View(st), views, k, op);
      CallAtRefines(st.base, k - 1, op);
      ReplaceBase(st, CallAt(st.base, k - 1, op));
    }
  }

  lemma ReplaceBase(st: Stack, base: Stack)
    requires Ok(st) && st.Cache? && Ok(base) && View(base) == View(st.base)
    ensures Ok(Cache(st.layer, base)) && View(Cache(st.layer, base)) == View(st)
    ensures Views(Cache(st.layer, base)) == [View(st)] + Views(base)
  {
    hide Overlay, LayerOk;
  }

  lemma SpecBelow(top: Coins, views: seq<Coins>, k: nat, op: Op)
    requires 0 < k && Admissible([top] + views, At(k, op))
    ensures Admissible(views, At(k - 1, op))
    ensures SpecStep([top] + views, At(k, op)) == [top] + SpecStep(views, At(k - 1, op))
  {
    hide Allowed, SpecCall;
    assert ([top] + views)[k] == views[k - 1];
    assert ([top] + views)[k..] == views[k - 1..];
    assert ([top] + views)[..k] == [top] + views[..k - 1];
  }

  lemma StepRefines(st: Stack, step: Step)
    requires Ok(st) && Admissible(Views(st), step)
    ensures CanTake(st, step)
    ensures Ok(Take(st, step)) && Views(Take(st, step)) == SpecStep(Views(st), step)
  {
    hide Overlay, LayerOk, Unspent, CallAt, StepThrows;
    match step
    case At(k, op) => CallAtRefines(st, k, op);
    case NewLayer =>
      ViewsUnspent(st);
      EmptyLayer(View(st));
      ViewIsFirst(st);
    case DropLayer =>
      assert Views(st) == [View(st)] + Views(st.base);
  }

  predicate AdmissibleRun(views: seq<Coins>, steps: seq<Step>)
    decreases |steps|
  {
    steps == [] || (Admissible(views, steps[0]) && AdmissibleRun(SpecStep(views, steps[0]), steps[1..]))
  }

  function SpecRun(views: seq<Coins>, steps: seq<Step>): seq<Coins>
    requires AdmissibleRun(views, steps)
    decreases |steps|
  {
    if steps == [] then views else SpecRun(SpecStep(views, steps[0]), steps[1..])
  }

  /** The caches can take the steps one after the other without any of them throwing. */
  predicate CanRun(st: Stack, steps: seq<Step>)
    decreases |steps|
  {
    steps == [] || (CanTake(st, steps[0]) && CanRun(Take(st, steps[0]), steps[1..]))
  }

  function Run(st: Stack, steps: seq<Step>): Stack
    requires CanRun(st, steps)
    decreases |steps|
  {
    if steps == [] then st else Run(Take(st, steps[0]), steps[1..])
  }

  /**
   Whatever sequence of calls may be made against plain maps may be made against the caches:
   no logic_error is raised, the flags stay truthful, and every level shows its plain map.
   */
  lemma {:induction false} RunRefines(st: Stack, steps: seq<Step>)
    requires Ok(st) && AdmissibleRun(Views(st), steps)
    ensures CanRun(st, steps)
    ensures Ok(Run(st, steps))
    ensures Views(Run(st, steps)) == SpecRun(Views(st), steps)
    decreases |steps|
  {
    hide Ok, Views, Take, CanTake, Admissible, SpecStep;
    if steps != [] {
      StepRefines(st, steps[0]);
      RunRefines(Take(st, steps[0]), steps[1..]);
    }
  }
}
