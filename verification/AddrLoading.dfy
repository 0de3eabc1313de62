/**
 Loading an arbitrary address file: whatever it says, the tables, counts and places come out
 consistent; the address index does so exactly when no kept entry shares its address.
 */
module AddrLoading {
  import opened AddrTables
  import opened AddrOps
  import opened AddrFile

  // ---------------------------------------------------------------- what loading always keeps

  predicate Plain(info: Info) {
    info.lastTry == 0 && info.refCount <= NEW_BUCKETS_PER_ADDRESS && (info.inTried ==> info.refCount == 0)
  }

  /** Tables, reference counts and places agree. */
  ghost predicate Tabled(st: State) {
    && Numbered(st)
    && NewOk(st.env, st.key, st.infos, st.newTab)
    && RefOk(st.infos, st.newTab)
    && TriedOk(st.env, st.key, st.infos, st.triedTab)
    && AllPlain(st.infos)
  }

  ghost predicate AllPlain(infos: Infos) {
    forall id :: id in infos ==> Plain(infos[id])
  }

  /** The address index knows every address of an entry, and for each some entry that has it. */
  ghost predicate Indexed(infos: Infos, addrs: map<NetAddr, int>) {
    && (forall id :: id in infos ==> infos[id].service.net in addrs)
    && (forall a :: a in addrs ==> HasAddr(infos, addrs[a], a))
  }

  /** Entries of the new table come first. */
  ghost predicate Ordered(st: State, split: int) {
    forall id: int :: id in st.infos ==> (st.infos[id].inTried <==> id >= split)
  }

  ghost predicate Entering(st: State, split: int, tried: int, uncounted: int) {
    Tabled(st) && Indexed(st.infos, st.addrs) && Ordered(st, split)
    && CountOk(st.infos, tried, st.nNew, uncounted)
  }

  lemma NoSlotsYet(st: State, id: int)
    requires NewOk(st.env, st.key, st.infos, st.newTab) && id !in st.infos
    ensures SlotsOf(st.newTab, id) == {}
  {
    forall s | s in st.newTab
      ensures st.newTab[s] != id
    {
      assert NewSlotOk(st.env, st.key, st.infos, s, st.newTab[s]);
    }
  }

  lemma AddTables(st: State, id: int, info: Info)
    requires NewOk(st.env, st.key, st.infos, st.newTab) && RefOk(st.infos, st.newTab)
    requires TriedOk(st.env, st.key, st.infos, st.triedTab)
    requires id !in st.infos && info.refCount == 0
    requires info.inTried ==> TriedSlot(st.env, st.key, info.service) !in st.triedTab
    ensures
      var infos := st.infos[id := info];
      var tab := if info.inTried then st.triedTab[TriedSlot(st.env, st.key, info.service) := id] else st.triedTab;
      && NewOk(st.env, st.key, infos, st.newTab) && RefOk(infos, st.newTab)
      && TriedOk(st.env, st.key, infos, tab)
  {
    hide TriedSlot, NewSlot;
    NoSlotsYet(st, id);
    var infos := st.infos[id := info];
    forall s | s in st.newTab
      ensures NewSlotOk(st.env, st.key, infos, s, st.newTab[s])
    {
      assert NewSlotOk(st.env, st.key, st.infos, s, st.newTab[s]);
    }
    forall s | s in st.triedTab
      ensures TriedSlotOk(st.env, st.key, infos, s, st.triedTab[s])
    {
      assert TriedSlotOk(st.env, st.key, st.infos, s, st.triedTab[s]);
    }
  }

  lemma AddIndexed(infos: Infos, addrs: map<NetAddr, int>, id: int, info: Info)
    requires Indexed(infos, addrs) && id !in infos
    ensures Indexed(infos[id := info], addrs[info.service.net := id])
  {
    var infos', addrs' := infos[id := info], addrs[info.service.net := id];
    forall a | a in addrs'
      ensures HasAddr(infos', addrs'[a], a)
    {
      if a != info.service.net {
        assert HasAddr(infos, addrs[a], a);
      }
    }
  }

  lemma AddListed(st: State, info: Info, split: int)
    requires AllPlain(st.infos) && Ordered(st, split)
    requires st.idCount !in st.infos && Plain(info) && (info.inTried <==> st.idCount >= split)
    ensures AllPlain(AddEntry(st, st.idCount, info).infos) && Ordered(AddEntry(st, st.idCount, info), split)
  {
    hide Plain;
  }

  lemma AddCounted(st: State, id: int, info: Info, tried: int, uncounted: int)
    requires CountOk(st.infos, tried, st.nNew, uncounted) && id !in st.infos
    ensures CountOk(st.infos[id := info], if info.inTried then tried + 1 else tried, st.nNew,
                    if info.inTried then uncounted else uncounted + 1)
  {
    hide TriedIds, NewIds;
    IdsSet(st.infos, id, info);
    NotAnId(st.infos, id);
  }

  lemma NotAnId(infos: Infos, id: int)
    requires id !in infos
    ensures id !in TriedIds(infos) && id !in NewIds(infos)
  {
  }

  /** An entry without references is added, to the tried table when it says so. */
  lemma AddEntering(st: State, info: Info, split: int, tried: int, uncounted: int)
    requires Entering(st, split, tried, uncounted)
    requires info.refCount == 0 && info.lastTry == 0 && info.randomPos == |st.random|
    requires info.inTried <==> st.idCount >= split
    requires info.inTried ==> TriedSlot(st.env, st.key, info.service) !in st.triedTab
    ensures
      var st1 := AddEntry(st, st.idCount, info);
      var s := TriedSlot(st.env, st.key, info.service);
      if info.inTried then Entering(st1.(triedTab := st.triedTab[s := st.idCount]), split, tried + 1, uncounted)
      else Entering(st1, split, tried, uncounted + 1)
  {
    hide RandomOk, NewOk, RefOk, TriedOk, Indexed, TriedSlot, AllPlain, CountOk;
    var id := st.idCount;
    AddEntryNumbered(st, id, info);
    AddTables(st, id, info);
    AddIndexed(st.infos, st.addrs, id, info);
    AddListed(st, info, split);
    AddCounted(st, id, info, tried, uncounted);
  }

  /** The same entries at the same services in the same table. */
  ghost predicate SameServices(infos: Infos, infos': Infos) {
    && (forall id: int :: id in infos <==> id in infos')
    && forall id: int {:trigger infos'[id]} {:trigger infos[id]} :: id in infos ==>
         infos'[id].service == infos[id].service && infos'[id].inTried == infos[id].inTried
  }

  lemma SameServicesKeep(st: State, infos: Infos)
    requires SameServices(st.infos, infos) && Indexed(st.infos, st.addrs)
    requires TriedOk(st.env, st.key, st.infos, st.triedTab)
    ensures Indexed(infos, st.addrs) && TriedOk(st.env, st.key, infos, st.triedTab)
    ensures TriedIds(infos) == TriedIds(st.infos) && NewIds(infos) == NewIds(st.infos)
  {
    hide TriedSlot;
    forall id: int
      ensures id in TriedIds(infos) <==> id in TriedIds(st.infos)
      ensures id in NewIds(infos) <==> id in NewIds(st.infos)
    {
    }
    forall a | a in st.addrs
      ensures HasAddr(infos, st.addrs[a], a)
    {
      assert HasAddr(st.infos, st.addrs[a], a);
    }
    forall t | t in st.triedTab
      ensures TriedSlotOk(st.env, st.key, infos, t, st.triedTab[t])
    {
      assert TriedSlotOk(st.env, st.key, st.infos, t, st.triedTab[t]);
    }
  }

  lemma OccupyEntering(st: State, s: Slot, id: int, split: int, tried: int, uncounted: int)
    requires Entering(st, split, tried, uncounted) && s !in st.newTab
    requires NewSlotOk(st.env, st.key, st.infos, s, id) && st.infos[id].refCount < NEW_BUCKETS_PER_ADDRESS
    ensures Entering(Occupy(st, s, id), split, tried, uncounted)
  {
    hide NewOk, RefOk, NewSlot, TriedOk, RandomOk, Indexed, TriedIds, NewIds;
    OccupyNew(st, s, id);
    OccupyNumbered(st, s, id);
    SameServicesKeep(st, Occupy(st, s, id).infos);
  }

  // ---------------------------------------------------------------- the three stages

  /** What no stage changes. */
  ghost predicate SameBase(st: State, st': State) {
    st'.env == st.env && st'.key == st.key && st'.nNew == st.nNew
  }

  lemma StartEntering(env: Env, key: nat, nNew: int, nTried: int)
    ensures Entering(Clear(env, key).(nNew := nNew, nTried := nTried), nNew, 0, 0 - nNew)
  {
    assert TriedIds(map[]) == {} && NewIds(map[]) == {};
  }

  lemma {:induction false} LoadNewEntering(st: State, items: seq<Disk>, usable: bool)
    requires Entering(st, st.nNew, 0, 0 - st.nNew) && st.idCount == 0 && |items| <= st.nNew
    ensures
      var st' := LoadNew(st, items, usable);
      && Entering(st', st.nNew, 0, |items| - st.nNew)
      && SameBase(st, st') && st'.nTried == st.nTried && st'.idCount == |items|
  {
    hide Entering;
    if items != [] {
      var n := |items| - 1;
      LoadNewEntering(st, items[..n], usable);
      var ld, d := LoadNew(st, items[..n], usable), items[n];
      LoadNewItemEntering(ld, n, d, usable, n - st.nNew);
    }
  }

  lemma LoadNewItemEntering(ld: State, n: nat, d: Disk, usable: bool, uncounted: int)
    requires Entering(ld, ld.nNew, 0, uncounted) && ld.idCount == n < ld.nNew
    ensures
      var ld' := LoadNewItem(ld, n, d, usable);
      && Entering(ld', ld.nNew, 0, uncounted + 1)
      && SameBase(ld, ld') && ld'.nTried == ld.nTried && ld'.idCount == n + 1
  {
    hide Entering, NewBucket, Position, TriedSlot;
    var info := FromDisk(d, |ld.random|);
    AddEntering(ld, info, ld.nNew, 0, uncounted);
    var ld1 := AddEntry(ld, n, info);
    var s := NewSlot(ld.env, ld.key, d.service, NewBucket(ld.env, ld.key, d.service, d.source));
    if !usable && s !in ld1.newTab {
      OccupyEntering(ld1, s, n, ld.nNew, 0, uncounted + 1);
    }
  }

  lemma {:induction false} LoadTriedEntering(st: State, items: seq<Disk>, total: int)
    requires Entering(st, st.nNew, 0, 0) && st.idCount == st.nNew && st.nTried == total
    ensures
      var st' := LoadTried(st, items);
      && Entering(st', st.nNew, st'.nTried - (total - |items|), 0)
      && SameBase(st, st') && st'.idCount >= st.nNew
  {
    hide Entering;
    if items != [] {
      var n := |items| - 1;
      LoadTriedEntering(st, items[..n], total);
      var ld := LoadTried(st, items[..n]);
      LoadTriedItemEntering(ld, items[n], ld.nTried - (total - n));
    }
  }

  lemma LoadTriedItemEntering(ld: State, d: Disk, tried: int)
    requires Entering(ld, ld.nNew, tried, 0) && ld.idCount >= ld.nNew
    ensures
      var ld' := LoadTriedItem(ld, d);
      && Entering(ld', ld.nNew, ld'.nTried - ld.nTried + tried + 1, 0)
      && SameBase(ld, ld') && ld'.idCount >= ld.nNew
  {
    hide RandomOk, NewOk, RefOk, TriedOk, Indexed, TriedSlot, AllPlain, TriedIds, NewIds;
    if TriedSlot(ld.env, ld.key, d.service) !in ld.triedTab {
      AddEntering(ld, FromDisk(d, |ld.random|).(inTried := true), ld.nNew, tried, 0);
    }
  }

  lemma LoadRefEntering(ld: State, b: nat, index: int, usable: bool, tried: int)
    requires Entering(ld, ld.nNew, tried, 0) && (usable ==> b < NEW_BUCKET_COUNT)
    ensures
      var ld' := LoadRef(ld, b, index, usable);
      Entering(ld', ld.nNew, tried, 0) && SameBase(ld, ld') && ld'.nTried == ld.nTried
  {
    hide Tabled, Indexed, CountOk, Position;
    if 0 <= index < ld.nNew && index in ld.infos {
      var s := NewSlot(ld.env, ld.key, ld.infos[index].service, b);
      if usable && s !in ld.newTab && ld.infos[index].refCount < NEW_BUCKETS_PER_ADDRESS {
        OccupyEntering(ld, s, index, ld.nNew, tried, 0);
      }
    }
  }

  lemma {:induction false} LoadBucketEntering(ld: State, b: nat, refs: seq<int>, usable: bool, tried: int)
    requires Entering(ld, ld.nNew, tried, 0) && (usable ==> b < NEW_BUCKET_COUNT)
    ensures
      var ld' := LoadBucket(ld, b, refs, usable);
      Entering(ld', ld.nNew, tried, 0) && SameBase(ld, ld') && ld'.nTried == ld.nTried
  {
    hide Entering, LoadRef;
    if refs != [] {
      var n := |refs| - 1;
      LoadBucketEntering(ld, b, refs[..n], usable, tried);
      LoadRefEntering(LoadBucket(ld, b, refs[..n], usable), b, refs[n], usable, tried);
    }
  }

  lemma {:induction false} LoadBucketsEntering(ld: State, buckets: seq<seq<int>>, usable: bool, tried: int)
    requires Entering(ld, ld.nNew, tried, 0) && (usable ==> |buckets| <= NEW_BUCKET_COUNT)
    ensures
      var ld' := LoadBuckets(ld, buckets, usable);
      Entering(ld', ld.nNew, tried, 0) && SameBase(ld, ld') && ld'.nTried == ld.nTried
  {
    hide Entering, LoadBucket;
    if buckets != [] {
      var n := |buckets| - 1;
      LoadBucketsEntering(ld, buckets[..n], usable, tried);
      LoadBucketEntering(LoadBuckets(ld, buckets[..n], usable), n, buckets[n], usable, tried);
    }
  }

  predicate WithinSizes(file: File) {
    && file.keySize == 32 && file.nNew <= NEW_BUCKET_COUNT * BUCKET_SIZE
    && file.nTried <= TRIED_BUCKET_COUNT * BUCKET_SIZE
  }

  /** All entries and references read, nothing pruned yet. */
  function Entered(env: Env, file: File): State {
    var st0 := Clear(env, file.key).(nNew := file.nNew, nTried := file.nTried);
    LoadBuckets(LoadTried(LoadNew(st0, file.newInfos, Usable(file)), file.triedInfos), file.buckets, Usable(file))
  }

  lemma EnteredIs(env: Env, file: File)
    requires Complete(file)
    ensures
      var st := Entered(env, file);
      && Entering(st, file.nNew, st.nTried, 0) && st.env == env && st.key == file.key
      && (Load(env, file).Accepted? <==> WithinSizes(file))
      && (Load(env, file).Accepted? ==> Load(env, file).state == Prune(st, st.idCount))
  {
    hide Entering, LoadNew, LoadTried, LoadBuckets, Numbered, Prune;
    var st0 := Clear(env, file.key).(nNew := file.nNew, nTried := file.nTried);
    StartEntering(env, file.key, file.nNew, file.nTried);
    LoadNewEntering(st0, file.newInfos, Usable(file));
    var st1 := LoadNew(st0, file.newInfos, Usable(file));
    LoadTriedEntering(st1, file.triedInfos, file.nTried);
    var st2 := LoadTried(st1, file.triedInfos);
    LoadBucketsEntering(st2, file.buckets, Usable(file), st2.nTried);
    EnteringNumbered(Entered(env, file), file.nNew, st2.nTried, 0);
  }

  lemma EnteringNumbered(st: State, split: int, tried: int, uncounted: int)
    requires Entering(st, split, tried, uncounted)
    ensures Numbered(st)
  {
  }

  // ---------------------------------------------------------------- pruning

  predicate Dead(infos: Infos, id: int) {
    id in infos && !infos[id].inTried && infos[id].refCount == 0
  }

  predicate DeadWith(infos: Infos, id: int, a: NetAddr) {
    Dead(infos, id) && infos[id].service.net == a
  }

  ghost predicate LostBelow(infos: Infos, n: int, a: NetAddr) {
    exists id :: id < n && DeadWith(infos, id, a)
  }

  /** The state with its unreferenced entries below `n` gone, and their addresses with them. */
  ghost predicate Pruned(st: State, st': State, n: int) {
    && Tabled(st') && CountOk(st'.infos, st'.nTried, st'.nNew, 0)
    && st'.key == st.key && st'.idCount == st.idCount
    && (forall id: int :: id in st'.infos <==> id in st.infos && !(id < n && Dead(st.infos, id)))
    && (forall id: int :: id in st'.infos ==> Kept(st.infos, st'.infos, id))
    && (forall a :: a in st'.addrs <==> a in st.addrs && !LostBelow(st.infos, n, a))
    && (forall a :: a in st'.addrs ==> st'.addrs[a] == st.addrs[a])
  }

  lemma DeleteTabled(st: State, id: int)
    requires Tabled(st) && CountOk(st.infos, st.nTried, st.nNew, 0) && Dead(st.infos, id)
    ensures
      var st' := Delete(st, id);
      && Tabled(st') && CountOk(st'.infos, st'.nTried, st'.nNew, 0)
      && st'.key == st.key && st'.idCount == st.idCount
      && (forall x: int :: x in st'.infos <==> x in st.infos && x != id)
      && (forall x: int :: x in st'.infos ==> Kept(st.infos, st'.infos, x))
      && st'.addrs == st.addrs - {st.infos[id].service.net}
  {
    hide NewOk, RefOk, TriedOk, Swapped, TriedIds, NewIds;
    DeleteNumbered(st, id);
    var i, j := st.infos[id].randomPos, |st.random| - 1;
    assert PlacedAt(st.infos, st.random[i], i) && PlacedAt(st.infos, st.random[j], j);
    var st1 := SwapRandom(st, i, j);
    SwapKept(st, i, j);
    assert Kept(st.infos, st1.infos, id);
    DropTables(st1, id);
    IdsDrop(st1.infos, id);
    DeadIsNew(st1.infos, id);
    assert Delete(st, id) == DropLast(st1, id);
    forall x: int | x in st.infos && x != id
      ensures Kept(st.infos, Delete(st, id).infos, x)
    {
      DeleteKeeps(st, id, x);
    }
  }

  lemma DeadIsNew(infos: Infos, id: int)
    requires Dead(infos, id)
    ensures id in NewIds(infos) && id !in TriedIds(infos)
  {
  }

  lemma SwapKept(st: State, i: nat, j: nat)
    requires i < |st.random| && j < |st.random| && st.random[i] in st.infos && st.random[j] in st.infos
    requires NewOk(st.env, st.key, st.infos, st.newTab) && RefOk(st.infos, st.newTab)
    requires TriedOk(st.env, st.key, st.infos, st.triedTab)
    ensures
      var st' := SwapRandom(st, i, j);
      && NewOk(st.env, st.key, st'.infos, st.newTab) && RefOk(st'.infos, st.newTab)
      && TriedOk(st.env, st.key, st'.infos, st.triedTab)
      && (forall x: int :: x in st'.infos <==> x in st.infos)
      && (forall x: int :: x in st.infos ==> Kept(st.infos, st'.infos, x))
      && TriedIds(st'.infos) == TriedIds(st.infos) && NewIds(st'.infos) == NewIds(st.infos)
  {
    hide NewOk, RefOk, TriedOk, Swapped;
    var st' := SwapRandom(st, i, j);
    SwapSameIds(st.infos, st.random, i, j);
    forall x: int | x in st.infos
      ensures Kept(st.infos, st'.infos, x)
    {
      SwapKeeps(st.infos, st.random, i, j, x);
    }
    KeptHomes(st.infos, st'.infos);
    SameHomesIds(st.infos, st'.infos);
    SameTables(st, st'.infos);
  }

  lemma KeptHomes(infos: Infos, infos': Infos)
    requires forall x: int :: x in infos' <==> x in infos
    requires forall x: int :: x in infos ==> Kept(infos, infos', x)
    ensures SameHomes(infos, infos')
  {
    forall id | id in infos
      ensures infos'[id].service == infos[id].service && infos'[id].source == infos[id].source
      ensures infos'[id].refCount == infos[id].refCount && infos'[id].inTried == infos[id].inTried
    {
      assert Kept(infos, infos', id);
    }
  }

  lemma SameTables(st: State, infos: Infos)
    requires SameHomes(st.infos, infos)
    requires NewOk(st.env, st.key, st.infos, st.newTab) && RefOk(st.infos, st.newTab)
    requires TriedOk(st.env, st.key, st.infos, st.triedTab)
    ensures NewOk(st.env, st.key, infos, st.newTab) && RefOk(infos, st.newTab)
    ensures TriedOk(st.env, st.key, infos, st.triedTab)
  {
    hide SlotsOf, TriedSlot, NewSlot;
  }

  lemma {:induction false} PruneIs(st: State, n: nat)
    requires Tabled(st) && CountOk(st.infos, st.nTried, st.nNew, 0)
    ensures Pruned(st, Prune(st, n), n)
  {
    hide Tabled, CountOk, RandomOk, Delete, LostBelow;
    TabledNumbered(st);
    if n == 0 {
      PruneStart(st);
    } else {
      PruneIs(st, n - 1);
      var st1 := Prune(st, n - 1);
      var id := n - 1;
      if Dead(st1.infos, id) {
        assert Kept(st.infos, st1.infos, id);
        DeleteTabled(st1, id);
        PruneDead(st, st1, Delete(st1, id), id);
      } else {
        PruneSkip(st, st1, id);
      }
    }
  }

  lemma TabledNumbered(st: State)
    requires Tabled(st)
    ensures Numbered(st)
  {
  }

  lemma PruneStart(st: State)
    requires Tabled(st) && CountOk(st.infos, st.nTried, st.nNew, 0)
    ensures Pruned(st, st, 0)
  {
    hide NewOk, RefOk, TriedOk, CountOk, RandomOk;
    forall id: int | id in st.infos
      ensures !(id < 0)
    {
    }
    forall a
      ensures !LostBelow(st.infos, 0, a)
    {
    }
  }

  lemma LostNext(infos: Infos, id: int, a: NetAddr)
    ensures LostBelow(infos, id + 1, a) <==> LostBelow(infos, id, a) || DeadWith(infos, id, a)
  {
    if LostBelow(infos, id, a) {
      var x :| x < id && DeadWith(infos, x, a);
      assert x < id + 1;
    }
    if DeadWith(infos, id, a) {
      assert id < id + 1;
    }
  }

  lemma PruneDead(st: State, st1: State, st2: State, id: int)
    requires Pruned(st, st1, id) && Dead(st1.infos, id) && Dead(st.infos, id)
    requires Tabled(st2) && CountOk(st2.infos, st2.nTried, st2.nNew, 0)
    requires st2.key == st1.key && st2.idCount == st1.idCount
    requires forall x: int :: x in st2.infos <==> x in st1.infos && x != id
    requires forall x: int :: x in st2.infos ==> Kept(st1.infos, st2.infos, x)
    requires st2.addrs == st1.addrs - {st1.infos[id].service.net}
    ensures Pruned(st, st2, id + 1)
  {
    hide Tabled, CountOk, LostBelow;
    assert Kept(st.infos, st1.infos, id);
    forall x: int | x in st2.infos
      ensures Kept(st.infos, st2.infos, x)
    {
      assert Kept(st1.infos, st2.infos, x) && Kept(st.infos, st1.infos, x);
    }
    forall a
      ensures LostBelow(st.infos, id + 1, a) <==> LostBelow(st.infos, id, a) || DeadWith(st.infos, id, a)
    {
      LostNext(st.infos, id, a);
    }
  }

  lemma PruneSkip(st: State, st1: State, id: int)
    requires Pruned(st, st1, id) && !Dead(st1.infos, id)
    ensures Pruned(st, st1, id + 1)
  {
    hide Tabled, CountOk, LostBelow;
    assert id in st1.infos ==> Kept(st.infos, st1.infos, id);
    assert !Dead(st.infos, id);
    forall a
      ensures LostBelow(st.infos, id + 1, a) <==> LostBelow(st.infos, id, a)
    {
      LostNext(st.infos, id, a);
    }
  }

  // ---------------------------------------------------------------- when the result is consistent

  predicate Timely(info: Info) {
    if info.inTried then info.lastSuccess > 0 else info.lastSuccess >= 0
  }

  ghost predicate SoleHolder(infos: Infos, id: int)
    requires id in infos
  {
    forall x :: x in infos && infos[x].service.net == infos[id].service.net ==> x == id
  }

  /** Every entry that will be kept has a proper success time and shares its address with none. */
  ghost predicate WellKept(infos: Infos) {
    forall id :: id in infos && !Dead(infos, id) ==> Timely(infos[id]) && SoleHolder(infos, id)
  }

  lemma PrunedAddrs(st: State, st': State)
    requires Pruned(st, st', st.idCount) && Indexed(st.infos, st.addrs) && Numbered(st)
    ensures AddrOk(st'.infos, st'.addrs) <==>
      forall id :: id in st.infos && !Dead(st.infos, id) ==> SoleHolder(st.infos, id)
  {
    hide Tabled, CountOk, RandomOk;
    forall a | a in st'.addrs
      ensures HasAddr(st'.infos, st'.addrs[a], a)
    {
      var x := st.addrs[a];
      assert HasAddr(st.infos, x, a);
      assert !DeadWith(st.infos, x, a);
      assert Kept(st.infos, st'.infos, x);
    }
    if forall id :: id in st.infos && !Dead(st.infos, id) ==> SoleHolder(st.infos, id) {
      forall id | id in st'.infos
        ensures st'.infos[id].service.net in st'.addrs && st'.addrs[st'.infos[id].service.net] == id
      {
        KeptIsIndexed(st, st', id);
      }
    }
    if AddrOk(st'.infos, st'.addrs) {
      forall id | id in st.infos && !Dead(st.infos, id)
        ensures SoleHolder(st.infos, id)
      {
        IndexedIsSole(st, st', id);
      }
    }
  }

  lemma KeptIsIndexed(st: State, st': State, id: int)
    requires Pruned(st, st', st.idCount) && Indexed(st.infos, st.addrs) && Numbered(st)
    requires id in st'.infos && id in st.infos && SoleHolder(st.infos, id)
    ensures st'.infos[id].service.net in st'.addrs && st'.addrs[st'.infos[id].service.net] == id
  {
    hide Tabled, CountOk, RandomOk;
    assert Kept(st.infos, st'.infos, id);
    assert 0 <= id < st.idCount;
    var a := st.infos[id].service.net;
    assert HasAddr(st.infos, st.addrs[a], a);
    assert st.addrs[a] == id;
    forall x
      ensures !DeadWith(st.infos, x, a)
    {
    }
  }

  lemma IndexedIsSole(st: State, st': State, id: int)
    requires Pruned(st, st', st.idCount) && Numbered(st) && AddrOk(st'.infos, st'.addrs)
    requires id in st.infos && !Dead(st.infos, id)
    ensures SoleHolder(st.infos, id)
  {
    hide Tabled, CountOk, RandomOk;
    assert Kept(st.infos, st'.infos, id);
    var a := st.infos[id].service.net;
    assert a in st'.addrs && st'.addrs[a] == id;
    forall x | x in st.infos && st.infos[x].service.net == a
      ensures x == id
    {
      assert 0 <= x < st.idCount;
      assert !DeadWith(st.infos, x, a);
      assert Kept(st.infos, st'.infos, x);
    }
  }

  lemma PrunedEntries(st: State, st': State)
    requires Pruned(st, st', st.idCount) && Numbered(st)
    ensures EntriesOk(st'.infos, st'.idCount, {}) <==>
      forall id :: id in st.infos && !Dead(st.infos, id) ==> Timely(st.infos[id])
  {
    hide CountOk, RandomOk, NewOk, TriedOk, LostBelow;
    forall id | id in st'.infos
      ensures 0 <= id < st'.idCount
      ensures EntryOk(st'.infos[id], false) <==> Timely(st.infos[id])
    {
      assert Kept(st.infos, st'.infos, id);
      assert Plain(st'.infos[id]);
      assert 0 <= id < st.idCount && !Dead(st.infos, id);
    }
    forall id | id in st.infos && !Dead(st.infos, id)
      ensures id in st'.infos && Kept(st.infos, st'.infos, id)
    {
    }
    if EntriesOk(st'.infos, st'.idCount, {}) {
      forall id | id in st.infos && !Dead(st.infos, id)
        ensures Timely(st.infos[id])
      {
        assert Kept(st.infos, st'.infos, id);
      }
    }
  }

  /**
   A complete file within the size limits loads into a consistent manager exactly when its key
   is not zero and, once all entries and references are read, every entry that is in the tried
   table or has a reference has a proper success time and an address of its own.
   */
  lemma LoadConsistent(env: Env, file: File)
    requires Complete(file) && Load(env, file).Accepted?
    ensures Inv(Load(env, file).state) <==> file.key != 0 && WellKept(Entered(env, file).infos)
  {
    hide CountOk, RandomOk, NewOk, TriedOk, RefOk, AddrOk, EntriesOk, Dead, Timely, SoleHolder, Entered, Load, Prune;
    EnteredIs(env, file);
    var st := Entered(env, file);
    PruneIs(st, st.idCount);
    var st' := Load(env, file).state;
    PrunedAddrs(st, st');
    PrunedEntries(st, st');
  }

  // ---------------------------------------------------------------- files of distinct addresses

  predicate DistinctNets(items: seq<Disk>) {
    forall i, j :: 0 <= i < j < |items| ==> items[i].service.net != items[j].service.net
  }

  /** No address twice, no negative success time, and none missing in the tried table. */
  predicate Proper(file: File) {
    && DistinctNets(file.newInfos + file.triedInfos)
    && (forall i :: 0 <= i < |file.newInfos| ==> file.newInfos[i].lastSuccess >= 0)
    && (forall i :: 0 <= i < |file.triedInfos| ==> file.triedInfos[i].lastSuccess > 0)
  }

  ghost predicate Named(net: NetAddr, items: seq<Disk>) {
    exists k :: 0 <= k < |items| && items[k].service.net == net
  }

  /** Every entry is one of the items, with an address of its own. */
  ghost predicate Drawn(infos: Infos, items: seq<Disk>) {
    forall id :: id in infos ==>
      Timely(infos[id]) && Named(infos[id].service.net, items) && SoleHolder(infos, id)
  }

  lemma AddDrawn(infos: Infos, id: int, info: Info, items: seq<Disk>, d: Disk)
    requires Drawn(infos, items) && id !in infos && DistinctNets(items + [d])
    requires info.service == d.service && Timely(info)
    ensures Drawn(infos[id := info], items + [d])
  {
    hide Timely;
    assert (items + [d])[|items|] == d;
    var infos' := infos[id := info];
    forall x | x in infos
      ensures Named(infos[x].service.net, items + [d]) && infos[x].service.net != d.service.net
    {
      var k :| 0 <= k < |items| && items[k].service.net == infos[x].service.net;
      assert (items + [d])[k] == items[k];
    }
    forall x | x in infos'
      ensures SoleHolder(infos', x)
    {
      assert x in infos ==> SoleHolder(infos, x);
    }
  }

  lemma SkipDrawn(infos: Infos, items: seq<Disk>, d: Disk)
    requires Drawn(infos, items)
    ensures Drawn(infos, items + [d])
  {
    forall x | x in infos
      ensures Named(infos[x].service.net, items + [d])
    {
      var k :| 0 <= k < |items| && items[k].service.net == infos[x].service.net;
      assert (items + [d])[k] == items[k];
    }
  }

  lemma OccupyDrawn(st: State, s: Slot, id: int, items: seq<Disk>)
    requires Drawn(st.infos, items) && id in st.infos
    ensures Drawn(Occupy(st, s, id).infos, items)
  {
    hide Named;
    var infos := Occupy(st, s, id).infos;
    forall x | x in infos
      ensures SoleHolder(infos, x)
    {
      assert SoleHolder(st.infos, x);
    }
  }

  lemma PrefixDistinct(items: seq<Disk>, n: nat)
    requires DistinctNets(items) && n <= |items|
    ensures DistinctNets(items[..n])
  {
  }

  lemma {:induction false} LoadNewDrawn(st: State, items: seq<Disk>, usable: bool)
    requires Entering(st, st.nNew, 0, 0 - st.nNew) && st.idCount == 0 && |items| <= st.nNew
    requires st.infos == map[] && DistinctNets(items)
    requires forall i :: 0 <= i < |items| ==> items[i].lastSuccess >= 0
    ensures Drawn(LoadNew(st, items, usable).infos, items)
  {
    hide Entering, Drawn, DistinctNets;
    if items == [] {
      NothingDrawn();
    } else {
      var n := |items| - 1;
      var ld, d := LoadNew(st, items[..n], usable), items[n];
      PrefixDistinct(items, n);
      LoadNewDrawn(st, items[..n], usable);
      LoadNewEntering(st, items[..n], usable);
      EnteringNext(ld, st.nNew, 0, n - st.nNew);
      assert items == items[..n] + [d];
      var info := FromDisk(d, |ld.random|);
      AddDrawn(ld.infos, n, info, items[..n], d);
      var ld1 := AddEntry(ld, n, info);
      OccupyDrawn(ld1, NewSlot(ld.env, ld.key, d.service, NewBucket(ld.env, ld.key, d.service, d.source)), n, items);
    }
  }

  lemma NothingDrawn()
    ensures Drawn(map[], [])
  {
  }

  lemma EnteringNext(st: State, split: int, tried: int, uncounted: int)
    requires Entering(st, split, tried, uncounted)
    ensures st.idCount !in st.infos
  {
  }

  lemma {:induction false} LoadTriedDrawn(st: State, news: seq<Disk>, items: seq<Disk>)
    requires Entering(st, st.nNew, 0, 0) && st.idCount == st.nNew && Drawn(st.infos, news)
    requires DistinctNets(news + items) && forall i :: 0 <= i < |items| ==> items[i].lastSuccess > 0
    ensures Drawn(LoadTried(st, items).infos, news + items)
  {
    hide Entering, Drawn, DistinctNets, TriedSlot;
    if items == [] {
      assert news + items == news;
    } else {
      var n := |items| - 1;
      var init, d := items[..n], items[n];
      var ld := LoadTried(st, init);
      assert news + items == news + init + [d];
      assert (news + items)[..|news| + n] == news + init;
      PrefixDistinct(news + items, |news| + n);
      LoadTriedDrawn(st, news, init);
      LoadTriedEntering(st, init, st.nTried);
      EnteringNext(ld, st.nNew, ld.nTried - (st.nTried - n), 0);
      SkipDrawn(ld.infos, news + init, d);
      AddDrawn(ld.infos, ld.idCount, FromDisk(d, |ld.random|).(inTried := true), news + init, d);
    }
  }

  lemma {:induction false} LoadBucketDrawn(st: State, b: nat, refs: seq<int>, usable: bool, items: seq<Disk>)
    requires Drawn(st.infos, items)
    ensures Drawn(LoadBucket(st, b, refs, usable).infos, items)
  {
    hide Drawn, NewSlot;
    if refs != [] {
      var n := |refs| - 1;
      LoadBucketDrawn(st, b, refs[..n], usable, items);
      var ld := LoadBucket(st, b, refs[..n], usable);
      if refs[n] in ld.infos {
        OccupyDrawn(ld, NewSlot(ld.env, ld.key, ld.infos[refs[n]].service, b), refs[n], items);
      }
    }
  }

  lemma {:induction false} LoadBucketsDrawn(st: State, buckets: seq<seq<int>>, usable: bool, items: seq<Disk>)
    requires Drawn(st.infos, items)
    ensures Drawn(LoadBuckets(st, buckets, usable).infos, items)
  {
    hide Drawn, LoadBucket;
    if buckets != [] {
      var n := |buckets| - 1;
      LoadBucketsDrawn(st, buckets[..n], usable, items);
      LoadBucketDrawn(LoadBuckets(st, buckets[..n], usable), n, buckets[n], usable, items);
    }
  }

  lemma DrawnWellKept(infos: Infos, items: seq<Disk>)
    requires Drawn(infos, items)
    ensures WellKept(infos)
  {
    hide SoleHolder, Timely, Dead;
  }

  /**
   Whatever its version, bucket count and stored references, a file of distinct addresses with
   proper success times loads into a consistent manager.
   */
  lemma ProperFileLoads(env: Env, file: File)
    requires Complete(file) && WithinSizes(file) && Proper(file) && file.key != 0
    ensures Load(env, file).Accepted? && Inv(Load(env, file).state)
  {
    hide Entering, Drawn, DistinctNets, LoadNew, LoadTried, LoadBuckets, Load, Inv, WellKept;
    var st0 := Clear(env, file.key).(nNew := file.nNew, nTried := file.nTried);
    var usable, items := Usable(file), file.newInfos + file.triedInfos;
    StartEntering(env, file.key, file.nNew, file.nTried);
    LoadNewEntering(st0, file.newInfos, usable);
    assert items[..|file.newInfos|] == file.newInfos;
    PrefixDistinct(items, |file.newInfos|);
    LoadNewDrawn(st0, file.newInfos, usable);
    var st1 := LoadNew(st0, file.newInfos, usable);
    LoadTriedDrawn(st1, file.newInfos, file.triedInfos);
    LoadBucketsDrawn(LoadTried(st1, file.triedInfos), file.buckets, usable, items);
    DrawnWellKept(Entered(env, file).infos, items);
    EnteredIs(env, file);
    LoadConsistent(env, file);
  }

  /** The shortest file that does not: the same entry twice, of a version without references. */
  lemma RepeatedAddress(env: Env, key: nat, d: Disk)
    ensures
      var file := File(0, 32, key, 2, 0, 0, [d, d], [], []);
      Complete(file) && Load(env, file).Accepted? && !Inv(Load(env, file).state)
  {
    hide Load, Inv, NewBucket, Position, Entering;
    var file := File(0, 32, key, 2, 0, 0, [d, d], [], []);
    var st0 := Clear(env, key).(nNew := 2, nTried := 0);
    assert [d, d][..1] == [d] && [d][..0] == [];
    var st1 := LoadNew(st0, [d], false);
    assert LoadNew(st0, [], false) == st0;
    assert st1 == LoadNewItem(st0, 0, d, false);
    var st2 := LoadNew(st0, [d, d], false);
    assert st2 == LoadNewItem(st1, 1, d, false);
    assert Entered(env, file) == st2;
    assert st2.infos[0].refCount == 1 && st2.infos[1].service.net == st2.infos[0].service.net;
    EnteredIs(env, file);
    LoadConsistent(env, file);
    assert !SoleHolder(st2.infos, 0);
  }

  // ---------------------------------------------------------------- files whose references cannot be used

  /** The slot an entry has by its own source. */
  function OwnSlot(env: Env, key: nat, d: Disk): Slot {
    var bucket := NewBucket(env, key, d.service, d.source);
    Slot(bucket, Position(env, key, true, bucket, d.service))
  }

  ghost predicate FirstThere(env: Env, key: nat, items: seq<Disk>, n: nat)
    requires n < |items|
  {
    forall m :: 0 <= m < n ==> OwnSlot(env, key, items[m]) != OwnSlot(env, key, items[n])
  }

  /** Entry `n` has its own slot as its one reference, or none if an earlier entry has that slot. */
  ghost predicate Served(st: State, items: seq<Disk>, n: nat)
    requires n < |items|
  {
    var s := OwnSlot(st.env, st.key, items[n]);
    && n in st.infos && s in st.newTab
    && if FirstThere(st.env, st.key, items, n) then st.newTab[s] == n && st.infos[n].refCount == 1
       else st.newTab[s] != n && st.infos[n].refCount == 0
  }

  ghost predicate FirstCome(st: State, items: seq<Disk>) {
    && (forall n :: 0 <= n < |items| ==> Served(st, items, n))
    && (forall s :: s in st.newTab ==> exists n :: 0 <= n < |items| && OwnSlot(st.env, st.key, items[n]) == s)
    && (forall s :: s in st.newTab ==> 0 <= st.newTab[s] < |items|)
  }

  lemma {:induction false} LoadNewFirstCome(st: State, items: seq<Disk>)
    requires Entering(st, st.nNew, 0, 0 - st.nNew) && st.idCount == 0 && |items| <= st.nNew
    requires st.infos == map[] && st.newTab == map[]
    ensures FirstCome(LoadNew(st, items, false), items)
  {
    hide Entering, FirstCome;
    if items == [] {
      NobodyYet(LoadNew(st, items, false));
    } else {
      var n := |items| - 1;
      LoadNewFirstCome(st, items[..n]);
      LoadNewEntering(st, items[..n], false);
      var ld := LoadNew(st, items[..n], false);
      EnteringNext(ld, st.nNew, 0, n - st.nNew);
      NextCome(ld, items, n);
    }
  }

  lemma NobodyYet(st: State)
    requires st.newTab == map[]
    ensures FirstCome(st, [])
  {
  }

  lemma NextCome(ld: State, items: seq<Disk>, n: nat)
    requires n + 1 == |items| && FirstCome(ld, items[..n]) && n !in ld.infos
    ensures FirstCome(LoadNewItem(ld, n, items[n], false), items)
  {
    hide OwnSlot, NewSlot, NewBucket;
    var init, d := items[..n], items[n];
    var ld', s := LoadNewItem(ld, n, d, false), OwnSlot(ld.env, ld.key, d);
    OwnSlotIs(ld.env, ld.key, d);
    assert s in ld.newTab <==> !FirstThere(ld.env, ld.key, items, n) by {
      if s in ld.newTab {
        var m :| 0 <= m < n && OwnSlot(ld.env, ld.key, init[m]) == s;
        assert items[m] == init[m];
      }
      if !FirstThere(ld.env, ld.key, items, n) {
        var m :| 0 <= m < n && OwnSlot(ld.env, ld.key, items[m]) == s;
        assert Served(ld, init, m) && items[m] == init[m];
      }
    }
    forall m | 0 <= m <= n
      ensures Served(ld', items, m)
    {
      if m < n {
        assert Served(ld, init, m) && items[m] == init[m];
        assert FirstThere(ld.env, ld.key, items, m) <==> FirstThere(ld.env, ld.key, init, m);
      }
    }
    forall t | t in ld'.newTab
      ensures exists m :: 0 <= m < |items| && OwnSlot(ld'.env, ld'.key, items[m]) == t
    {
      if t in ld.newTab {
        var m :| 0 <= m < n && OwnSlot(ld.env, ld.key, init[m]) == t;
        assert items[m] == init[m];
      }
    }
  }

  lemma OwnSlotIs(env: Env, key: nat, d: Disk)
    ensures OwnSlot(env, key, d) == NewSlot(env, key, d.service, NewBucket(env, key, d.service, d.source))
  {
  }

  lemma TriedItemFirstCome(ld: State, news: seq<Disk>, d: Disk)
    requires FirstCome(ld, news) && ld.idCount >= |news|
    ensures FirstCome(LoadTriedItem(ld, d), news) && LoadTriedItem(ld, d).idCount >= |news|
  {
    hide OwnSlot, TriedSlot, FirstThere;
    forall m | 0 <= m < |news|
      ensures Served(LoadTriedItem(ld, d), news, m)
    {
      assert Served(ld, news, m);
    }
  }

  lemma {:induction false} LoadTriedFirstCome(st: State, news: seq<Disk>, items: seq<Disk>)
    requires FirstCome(st, news) && st.idCount >= |news|
    ensures FirstCome(LoadTried(st, items), news) && LoadTried(st, items).idCount >= |news|
  {
    hide FirstCome, LoadTriedItem;
    if items != [] {
      var n := |items| - 1;
      LoadTriedFirstCome(st, news, items[..n]);
      TriedItemFirstCome(LoadTried(st, items[..n]), news, items[n]);
    }
  }

  lemma {:induction false} UnusedBucket(st: State, b: nat, refs: seq<int>)
    ensures LoadBucket(st, b, refs, false) == st
  {
    if refs != [] { UnusedBucket(st, b, refs[..|refs| - 1]); }
  }

  lemma {:induction false} UnusedBuckets(st: State, buckets: seq<seq<int>>)
    ensures LoadBuckets(st, buckets, false) == st
  {
    hide LoadBucket;
    if buckets != [] {
      UnusedBuckets(st, buckets[..|buckets| - 1]);
      UnusedBucket(st, |buckets| - 1, buckets[|buckets| - 1]);
    }
  }

  /**
   A file of another version or another bucket count has its references ignored: before pruning,
   every entry of the new table has one reference at the slot of its own source, or none if an
   earlier entry of the file has that slot.
   */
  lemma RebuiltBySource(env: Env, file: File, n: nat)
    requires Complete(file) && n < |file.newInfos|
    requires file.version != 1 || FlipBit30(file.nUBuckets) != 1024
    ensures Entered(env, file).env == env && Entered(env, file).key == file.key
    ensures Served(Entered(env, file), file.newInfos, n)
  {
    hide Entering, LoadNew, LoadTried, LoadBuckets, Served, FlipBit30;
    EnteredIs(env, file);
    var st0 := Clear(env, file.key).(nNew := file.nNew, nTried := file.nTried);
    StartEntering(env, file.key, file.nNew, file.nTried);
    LoadNewEntering(st0, file.newInfos, false);
    LoadNewFirstCome(st0, file.newInfos);
    var st1 := LoadNew(st0, file.newInfos, false);
    LoadTriedFirstCome(st1, file.newInfos, file.triedInfos);
    UnusedBuckets(LoadTried(st1, file.triedInfos), file.buckets);
  }
}
