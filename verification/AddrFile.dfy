/**
 Saving an address manager and loading it back. Ids are renumbered on the way; everything
 else that is stored survives, and nothing is lost to collisions.
 */
module AddrFile {
  import opened AddrTables
  import opened AddrOps

  /** What is written for one entry. */
  datatype Disk = Disk(
    service: Service, services: set<nat>, time: int, source: NetAddr, lastSuccess: int, attempts: int)

  function DiskOf(info: Info): Disk {
    Disk(info.service, info.services, info.time, info.source, info.lastSuccess, info.attempts)
  }

  function FromDisk(d: Disk, randomPos: int): Info {
    Info(d.service, d.services, d.time, d.source, 0, 0, d.lastSuccess, d.attempts, 0, false, randomPos)
  }

  datatype File = File(
    version: nat, keySize: nat, key: nat, nNew: int, nTried: int, nUBuckets: int,
    newInfos: seq<Disk>, triedInfos: seq<Disk>, buckets: seq<seq<int>>)

  const BIT30: int := 0x4000_0000

  /** Exclusive or with 2^30. */
  function FlipBit30(x: int): int {
    if (x / BIT30) % 2 == 1 then x - BIT30 else x + BIT30
  }

  // ---------------------------------------------------------------- saving

  /** The ids below `n` with references, ascending: the order they are written in. */
  function NewSeq(infos: Infos, n: nat): seq<int> {
    if n == 0 then [] else
      NewSeq(infos, n - 1) + if n - 1 in infos && infos[n - 1].refCount != 0 then [n - 1] else []
  }

  function TriedSeq(infos: Infos, n: nat): seq<int> {
    if n == 0 then [] else
      TriedSeq(infos, n - 1) + if n - 1 in infos && infos[n - 1].inTried then [n - 1] else []
  }

  function Disks(infos: Infos, ids: seq<int>): (r: seq<Disk>)
    requires forall i :: 0 <= i < |ids| ==> Has(infos, ids[i])
    ensures |r| == |ids|
    ensures forall i :: 0 <= i < |ids| ==> r[i] == DiskAt(infos, ids[i])
  {
    seq(|ids|, i requires 0 <= i < |ids| => DiskAt(infos, ids[i]))
  }

  predicate Has(infos: Infos, id: int) { id in infos }

  function DiskAt(infos: Infos, id: int): Disk
    requires Has(infos, id)
  {
    DiskOf(infos[id])
  }

  /** The index under which an entry with references is stored. */
  function UnkId(infos: Infos, id: int): nat {
    if id < 0 then 0 else |NewSeq(infos, id)|
  }

  /** The stored contents of one new bucket up to position `i`. */
  function BucketList(st: State, b: nat, i: nat): seq<int> {
    if i == 0 then [] else
      BucketList(st, b, i - 1)
      + if Slot(b, i - 1) in st.newTab then [UnkId(st.infos, st.newTab[Slot(b, i - 1)])] else []
  }

  lemma {:induction false} NewSeqFacts(infos: Infos, n: nat)
    ensures forall i :: 0 <= i < |NewSeq(infos, n)| ==>
      Has(infos, NewSeq(infos, n)[i]) && 0 <= NewSeq(infos, n)[i] < n
      && infos[NewSeq(infos, n)[i]].refCount != 0
  {
    if n > 0 {
      NewSeqFacts(infos, n - 1);
    }
  }

  lemma {:induction false} TriedSeqFacts(infos: Infos, n: nat)
    ensures forall i :: 0 <= i < |TriedSeq(infos, n)| ==>
      Has(infos, TriedSeq(infos, n)[i]) && 0 <= TriedSeq(infos, n)[i] < n
      && infos[TriedSeq(infos, n)[i]].inTried
  {
    if n > 0 {
      TriedSeqFacts(infos, n - 1);
    }
  }

  function Save(st: State): File {
    NewSeqFacts(st.infos, st.idCount);
    TriedSeqFacts(st.infos, st.idCount);
    File(1, 32, st.key, st.nNew, st.nTried, FlipBit30(NEW_BUCKET_COUNT),
         Disks(st.infos, NewSeq(st.infos, st.idCount)), Disks(st.infos, TriedSeq(st.infos, st.idCount)),
         seq(NEW_BUCKET_COUNT, b requires 0 <= b < NEW_BUCKET_COUNT => BucketList(st, b, BUCKET_SIZE)))
  }

  // ---------------------------------------------------------------- loading

  /** A file is complete when it holds as many items as its counts announce. */
  predicate Complete(file: File) {
    && |file.newInfos| == file.nNew
    && |file.triedInfos| == file.nTried
    && |file.buckets| == Max(0, BucketCount(file))
  }

  function BucketCount(file: File): int {
    if file.version != 0 then FlipBit30(file.nUBuckets) else file.nUBuckets
  }

  /** Stored bucket positions can be used only by the same version with the same bucket count. */
  predicate Usable(file: File) {
    file.version == 1 && BucketCount(file) == NEW_BUCKET_COUNT
  }

  function AddEntry(st: State, id: nat, info: Info): State {
    st.(infos := st.infos[id := info], addrs := st.addrs[info.service.net := id],
        random := st.random + [id], idCount := id + 1)
  }

  function LoadNewItem(st: State, n: nat, d: Disk, usable: bool): State {
    var st1 := AddEntry(st, n, FromDisk(d, |st.random|));
    if usable then st1 else
      var s := NewSlot(st.env, st.key, d.service, NewBucket(st.env, st.key, d.service, d.source));
      if s in st1.newTab then st1 else Occupy(st1, s, n)
  }

  function LoadNew(st: State, items: seq<Disk>, usable: bool): State {
    if items == [] then st else
      var n := |items| - 1;
      LoadNewItem(LoadNew(st, items[..n], usable), n, items[n], usable)
  }

  function LoadTriedItem(st: State, d: Disk): State {
    var s := TriedSlot(st.env, st.key, d.service);
    if s in st.triedTab then st.(nTried := st.nTried - 1) else
      var id := st.idCount;
      AddEntry(st, id, FromDisk(d, |st.random|).(inTried := true)).(triedTab := st.triedTab[s := id])
  }

  function LoadTried(st: State, items: seq<Disk>): State {
    if items == [] then st else
      LoadTriedItem(LoadTried(st, items[..|items| - 1]), items[|items| - 1])
  }

  function LoadRef(st: State, b: nat, index: int, usable: bool): State {
    if 0 <= index < st.nNew && index in st.infos then
      var s := NewSlot(st.env, st.key, st.infos[index].service, b);
      if usable && s !in st.newTab && st.infos[index].refCount < NEW_BUCKETS_PER_ADDRESS
      then Occupy(st, s, index) else st
    else st
  }

  function LoadBucket(st: State, b: nat, refs: seq<int>, usable: bool): State {
    if refs == [] then st else
      LoadRef(LoadBucket(st, b, refs[..|refs| - 1], usable), b, refs[|refs| - 1], usable)
  }

  function LoadBuckets(st: State, buckets: seq<seq<int>>, usable: bool): State {
    if buckets == [] then st else
      var b := |buckets| - 1;
      LoadBucket(LoadBuckets(st, buckets[..b], usable), b, buckets[b], usable)
  }

  // ---------------------------------------------------------------- ascending lists

  predicate Increasing(ids: seq<int>) {
    forall i, j :: 0 <= i < j < |ids| ==> ids[i] < ids[j]
  }

  lemma {:induction false} SeqsIncrease(infos: Infos, n: nat)
    ensures Increasing(NewSeq(infos, n)) && Increasing(TriedSeq(infos, n))
  {
    if n > 0 {
      SeqsIncrease(infos, n - 1);
      NewSeqFacts(infos, n - 1);
      TriedSeqFacts(infos, n - 1);
    }
  }

  /** An entry with references is found again at its stored index. */
  lemma {:induction false} NewSeqIndex(infos: Infos, n: nat, id: int)
    requires 0 <= id < n && id in infos && infos[id].refCount != 0
    ensures UnkId(infos, id) < |NewSeq(infos, n)| && NewSeq(infos, n)[UnkId(infos, id)] == id
  {
    if id < n - 1 {
      NewSeqIndex(infos, n - 1, id);
    }
  }

  lemma {:induction false} TriedSeqIndex(infos: Infos, n: nat, id: int)
    requires 0 <= id < n && id in infos && infos[id].inTried
    ensures |TriedSeq(infos, id)| < |TriedSeq(infos, n)|
    ensures TriedSeq(infos, n)[|TriedSeq(infos, id)|] == id
  {
    if id < n - 1 {
      TriedSeqIndex(infos, n - 1, id);
    }
  }

  lemma {:induction false} IncreasingSize(ids: seq<int>, elems: set<int>)
    requires Increasing(ids)
    requires forall x: int :: x in elems <==> exists i :: 0 <= i < |ids| && ids[i] == x
    ensures |ids| == |elems|
  {
    if ids == [] {
      forall x: int
        ensures x !in elems
      {
      }
      assert elems == {};
    } else {
      var n := |ids| - 1;
      var last, init := ids[n], ids[..n];
      var rest := elems - {last};
      forall x: int
        ensures x in rest <==> exists i :: 0 <= i < |init| && init[i] == x
      {
        if x in rest {
          var i :| 0 <= i < |ids| && ids[i] == x;
          assert init[i] == x;
        }
        if i :| 0 <= i < |init| && init[i] == x {
          assert ids[i] == x;
        }
      }
      IncreasingSize(init, rest);
      assert ids[n] in elems;
      assert elems == rest + {last};
    }
  }

  /** The lists have exactly the lengths announced, so no serializer assertion fires. */
  lemma SeqSizes(st: State)
    requires Inv(st)
    ensures |NewSeq(st.infos, st.idCount)| == st.nNew
    ensures |TriedSeq(st.infos, st.idCount)| == st.nTried
  {
    hide RandomOk, AddrOk, NewOk, RefOk, TriedOk, NewSeq, TriedSeq;
    var news, tried := NewSeq(st.infos, st.idCount), TriedSeq(st.infos, st.idCount);
    SeqsIncrease(st.infos, st.idCount);
    NewSeqFacts(st.infos, st.idCount);
    TriedSeqFacts(st.infos, st.idCount);
    forall x: int
      ensures x in NewIds(st.infos) <==> exists i :: 0 <= i < |news| && news[i] == x
    {
      assert x in st.infos ==> EntryOk(st.infos[x], false);
      if x in NewIds(st.infos) {
        NewSeqIndex(st.infos, st.idCount, x);
      }
    }
    forall x: int
      ensures x in TriedIds(st.infos) <==> exists i :: 0 <= i < |tried| && tried[i] == x
    {
      if x in TriedIds(st.infos) {
        TriedSeqIndex(st.infos, st.idCount, x);
      }
    }
    IncreasingSize(news, NewIds(st.infos));
    IncreasingSize(tried, TriedIds(st.infos));
  }

  // ---------------------------------------------------------------- renumbering

  /** The id an entry had before it was given the loaded id `n`. */
  function OldId(st: State, n: int): int {
    var news, tried := NewSeq(st.infos, st.idCount), TriedSeq(st.infos, st.idCount);
    if 0 <= n < |news| then news[n]
    else if |news| <= n < |news| + |tried| then tried[n - |news|]
    else -1
  }

  /** The id an entry gets when it is loaded back. */
  function Renamed(st: State, id: int): int {
    if id !in st.infos || id < 0 then -1
    else if st.infos[id].inTried then st.nNew + |TriedSeq(st.infos, id)|
    else UnkId(st.infos, id)
  }

  lemma RenamedInverse(st: State, id: int)
    requires Inv(st) && id in st.infos
    ensures |NewSeq(st.infos, st.idCount)| == st.nNew && |TriedSeq(st.infos, st.idCount)| == st.nTried
    ensures 0 <= Renamed(st, id) < st.nNew + st.nTried && OldId(st, Renamed(st, id)) == id
    ensures Renamed(st, id) < st.nNew <==> !st.infos[id].inTried
  {
    hide RandomOk, AddrOk, NewOk, RefOk, TriedOk, NewSeq, TriedSeq;
    SeqSizes(st);
    assert EntryOk(st.infos[id], false);
    if st.infos[id].inTried {
      TriedSeqIndex(st.infos, st.idCount, id);
    } else {
      NewSeqIndex(st.infos, st.idCount, id);
    }
  }

  lemma OldIdFacts(st: State, n: nat)
    requires Inv(st) && n < st.nNew + st.nTried
    ensures |NewSeq(st.infos, st.idCount)| == st.nNew && |TriedSeq(st.infos, st.idCount)| == st.nTried
    ensures Has(st.infos, OldId(st, n)) && OldId(st, n) in st.infos
    ensures st.infos[OldId(st, n)].inTried <==> n >= st.nNew
    ensures Renamed(st, OldId(st, n)) == n
  {
    hide RandomOk, AddrOk, NewOk, RefOk, TriedOk, NewSeq, TriedSeq;
    SeqSizes(st);
    NewSeqFacts(st.infos, st.idCount);
    TriedSeqFacts(st.infos, st.idCount);
    SeqsIncrease(st.infos, st.idCount);
    var id := OldId(st, n);
    assert EntryOk(st.infos[id], false);
    RenamedInverse(st, id);
  }

  predicate SameDisk(infos: Infos, id: int, info: Info) {
    id in infos && DiskOf(infos[id]) == DiskOf(info)
  }

  /** The first `k` entries have been loaded, each with its stored data. */
  ghost predicate Holds(st: State, ld: State, k: nat) {
    && ld.env == st.env && ld.key == st.key && ld.nNew == st.nNew && ld.lastGood == 1 && ld.idCount == k
    && (forall n: int :: n in ld.infos <==> 0 <= n < k)
    && (forall n: int :: n in ld.infos ==>
          SameDisk(st.infos, OldId(st, n), ld.infos[n]) && (ld.infos[n].inTried <==> n >= st.nNew))
  }

  /** The address of the next entry to load has not been loaded yet. */
  lemma NextIsUnknown(st: State, ld: State, k: nat)
    requires Inv(st) && Holds(st, ld, k) && k < st.nNew + st.nTried
    requires AddrOk(ld.infos, ld.addrs)
    ensures OldId(st, k) in st.infos
    ensures st.infos[OldId(st, k)].service.net !in ld.addrs
  {
    hide RandomOk, NewOk, RefOk, TriedOk, CountOk, EntriesOk, OldId;
    OldIdFacts(st, k);
    var id := OldId(st, k);
    var net := st.infos[id].service.net;
    if net in ld.addrs {
      var m := ld.addrs[net];
      assert HasAddr(ld.infos, m, net);
      var id' := OldId(st, m);
      assert SameDisk(st.infos, id', ld.infos[m]);
      assert st.infos[id'].service.net == net;
      assert id' == id;
      OldIdFacts(st, m);
    }
  }

  lemma AddEntryLoose(st: State, info: Info, homeless: set<int>, uncounted: int)
    requires Loose(st, homeless, uncounted) && info.service.net !in st.addrs
    requires info.refCount == 0 && !info.inTried && info.randomPos == |st.random|
    requires info.lastTry >= 0 && info.lastSuccess >= 0
    ensures Loose(AddEntry(st, st.idCount, info), homeless + {st.idCount}, uncounted + 1)
  {
    hide AddrOk, NewOk, RefOk, TriedOk, CountOk, RandomOk;
    var addr := Address(info.service, info.services, info.time);
    var id, st1 := st.idCount, Create(st, addr, info.source);
    CreateLoose(st, addr, info.source, homeless, uncounted);
    var infos := st1.infos[id := info];
    SameRandom(st1.infos, infos, st1.random);
    assert EntryOk(st1.infos[id], true);
    SameHomesLoose(st1, infos, st1.random, homeless + {id}, uncounted + 1);
    assert AddEntry(st, id, info) == st1.(infos := infos);
  }

  function Range(k: nat): set<int> {
    if k == 0 then {} else Range(k - 1) + {k - 1}
  }

  function Blank(st: State): State {
    Clear(st.env, st.key).(nNew := st.nNew, nTried := st.nTried)
  }

  /** First stage: the entries of the new table, none of which has a slot yet. */
  lemma {:induction false} LoadNewStage(st: State, k: nat)
    requires Inv(st) && k <= st.nNew
    ensures |Save(st).newInfos| == st.nNew
    ensures
      var ld := LoadNew(Blank(st), Save(st).newInfos[..k], true);
      && Loose(ld.(nTried := 0), Range(k), k - st.nNew)
      && Holds(st, ld, k) && ld.newTab == map[] && ld.triedTab == map[] && ld.nTried == st.nTried
  {
    hide RandomOk, AddrOk, NewOk, RefOk, TriedOk, CountOk, EntriesOk, OldId, NewSeq;
    SeqSizes(st);
    var items := Save(st).newInfos;
    if k == 0 {
      LoadNewEmpty(st);
    } else {
      LoadNewStage(st, k - 1);
      var ld := LoadNew(Blank(st), items[..k - 1], true);
      assert items[..k][..k - 1] == items[..k - 1];
      NewItem(st, k - 1);
      NextIsUnknown(st, ld, k - 1);
      LoadNewStep(st, ld, k - 1, items[k - 1]);
    }
  }

  lemma LoadNewEmpty(st: State)
    requires Inv(st)
    ensures
      var ld := Blank(st);
      && Loose(ld.(nTried := 0), Range(0), 0 - st.nNew)
      && Holds(st, ld, 0) && ld.newTab == map[] && ld.triedTab == map[] && ld.nTried == st.nTried
  {
    ClearInv(st.env, st.key);
    hide RandomOk, AddrOk, NewOk, RefOk, TriedOk, EntriesOk;
    assert Range(0) == {};
  }

  lemma NewItem(st: State, k: nat)
    requires Inv(st) && k < st.nNew
    ensures |Save(st).newInfos| == st.nNew && OldId(st, k) in st.infos
    ensures Save(st).newInfos[k] == DiskOf(st.infos[OldId(st, k)])
    ensures st.infos[OldId(st, k)].lastSuccess >= 0
  {
    hide RandomOk, AddrOk, NewOk, RefOk, TriedOk, CountOk, NewSeq, TriedSeq;
    SeqSizes(st);
    OldIdFacts(st, k);
    NewSeqFacts(st.infos, st.idCount);
    TriedSeqFacts(st.infos, st.idCount);
    assert EntryOk(st.infos[OldId(st, k)], false);
  }

  lemma LoadNewStep(st: State, ld: State, k: nat, d: Disk)
    requires k < st.nNew && OldId(st, k) in st.infos && d == DiskOf(st.infos[OldId(st, k)])
    requires d.lastSuccess >= 0 && d.service.net !in ld.addrs
    requires Loose(ld.(nTried := 0), Range(k), k - st.nNew) && Holds(st, ld, k)
    ensures
      var ld' := LoadNewItem(ld, k, d, true);
      && Loose(ld'.(nTried := 0), Range(k + 1), k + 1 - st.nNew)
      && Holds(st, ld', k + 1) && ld'.newTab == ld.newTab && ld'.triedTab == ld.triedTab
      && ld'.nTried == ld.nTried
  {
    hide RandomOk, AddrOk, NewOk, RefOk, TriedOk, CountOk, EntriesOk, OldId;
    AddEntryLoose(ld.(nTried := 0), FromDisk(d, |ld.random|), Range(k), k - st.nNew);
  }

  /** Second stage: the tried entries; no two of them compete for a slot. */
  lemma {:induction false} LoadTriedStage(st: State, j: nat)
    requires Inv(st) && j <= st.nTried && 0 <= st.nNew
    ensures |Save(st).newInfos| == st.nNew && |Save(st).triedInfos| == st.nTried
    ensures
      var ld := LoadTried(LoadNew(Blank(st), Save(st).newInfos, true), Save(st).triedInfos[..j]);
      && Loose(ld.(nTried := j), Range(st.nNew), 0)
      && Holds(st, ld, st.nNew + j) && ld.newTab == map[] && ld.nTried == st.nTried
  {
    hide RandomOk, AddrOk, NewOk, RefOk, TriedOk, CountOk, EntriesOk, OldId, NewSeq, TriedSeq, LoadNew,
         LoadTriedItem;
    SeqSizes(st);
    var news, items := Save(st).newInfos, Save(st).triedInfos;
    if j == 0 {
      LoadNewStage(st, st.nNew);
      assert news[..st.nNew] == news;
    } else {
      LoadTriedStage(st, j - 1);
      var ld := LoadTried(LoadNew(Blank(st), news, true), items[..j - 1]);
      assert items[..j][..j - 1] == items[..j - 1];
      TriedItem(st, j - 1);
      NextIsUnknown(st, ld, st.nNew + j - 1);
      SlotIsFree(st, ld, j - 1);
      LoadTriedStep(st, ld, j - 1, items[j - 1]);
    }
  }

  lemma TriedItem(st: State, j: nat)
    requires Inv(st) && j < st.nTried && 0 <= st.nNew
    ensures |Save(st).triedInfos| == st.nTried && OldId(st, st.nNew + j) in st.infos
    ensures Save(st).triedInfos[j] == DiskOf(st.infos[OldId(st, st.nNew + j)])
    ensures st.infos[OldId(st, st.nNew + j)].inTried
    ensures st.infos[OldId(st, st.nNew + j)].lastSuccess > 0
  {
    hide RandomOk, AddrOk, NewOk, RefOk, TriedOk, CountOk, NewSeq, TriedSeq;
    SeqSizes(st);
    OldIdFacts(st, st.nNew + j);
    NewSeqFacts(st.infos, st.idCount);
    TriedSeqFacts(st.infos, st.idCount);
    assert EntryOk(st.infos[OldId(st, st.nNew + j)], false);
  }

  lemma SlotIsFree(st: State, ld: State, j: nat)
    requires Inv(st) && j < st.nTried && 0 <= st.nNew && Holds(st, ld, st.nNew + j)
    requires TriedOk(ld.env, ld.key, ld.infos, ld.triedTab)
    ensures OldId(st, st.nNew + j) in st.infos
    ensures TriedSlot(st.env, st.key, st.infos[OldId(st, st.nNew + j)].service) !in ld.triedTab
  {
    hide RandomOk, AddrOk, NewOk, RefOk, CountOk, EntriesOk, OldId, TriedSlot;
    OldIdFacts(st, st.nNew + j);
    var id := OldId(st, st.nNew + j);
    var s := TriedSlot(st.env, st.key, st.infos[id].service);
    if s in ld.triedTab {
      var m := ld.triedTab[s];
      assert TriedSlotOk(ld.env, ld.key, ld.infos, s, m);
      var id' := OldId(st, m);
      assert SameDisk(st.infos, id', ld.infos[m]);
      OldIdFacts(st, m);
    }
  }

  lemma LoadTriedStep(st: State, ld: State, j: nat, d: Disk)
    requires j < st.nTried && 0 <= st.nNew
    requires OldId(st, st.nNew + j) in st.infos && d == DiskOf(st.infos[OldId(st, st.nNew + j)])
    requires d.lastSuccess > 0 && d.service.net !in ld.addrs
    requires TriedSlot(st.env, st.key, d.service) !in ld.triedTab
    requires Loose(ld.(nTried := j), Range(st.nNew), 0) && Holds(st, ld, st.nNew + j)
    ensures
      var ld' := LoadTriedItem(ld, d);
      && Loose(ld'.(nTried := j + 1), Range(st.nNew), 0)
      && Holds(st, ld', st.nNew + j + 1) && ld'.newTab == ld.newTab && ld'.nTried == ld.nTried
  {
    hide RandomOk, AddrOk, NewOk, RefOk, TriedOk, CountOk, EntriesOk, OldId, TriedSlot, Range;
    var id, info := ld.idCount, FromDisk(d, |ld.random|);
    var ldj := ld.(nTried := j);
    AddEntryLoose(ldj, info, Range(st.nNew), 0);
    var ld1 := AddEntry(ldj, id, info);
    EnterTriedLoose(ld1, id, Range(st.nNew) + {id}, 1);
    RangeLacks(st.nNew, id);
    assert Range(st.nNew) + {id} - {id} == Range(st.nNew);
    var s := TriedSlot(st.env, st.key, d.service);
    assert EnterTried(ld1, s, id) == LoadTriedItem(ld, d).(nTried := j + 1);
  }

  lemma {:induction false} RangeLacks(k: nat, id: int)
    requires id >= k
    ensures id !in Range(k)
  {
    if k > 0 {
      RangeLacks(k - 1, id);
    }
  }

  // ---------------------------------------------------------------- the stored bucket positions

  /** The new-table slots before bucket `b`, position `i` are back, under the new ids. */
  ghost predicate Refs(st: State, ld: State, b: nat, i: nat) {
    forall s: Slot ::
      && (s in ld.newTab <==> s in st.newTab && Before(s, b, i))
      && (s in ld.newTab ==> ld.newTab[s] == UnkId(st.infos, st.newTab[s]))
  }

  /** The entry in an occupied slot: its stored index leads back to it, and to the same slot. */
  lemma SlotOwner(st: State, ld: State, s: Slot)
    requires Inv(st) && Holds(st, ld, st.nNew + st.nTried) && s in st.newTab
    ensures
      var id := st.newTab[s];
      var index := UnkId(st.infos, id);
      && id in st.infos && !st.infos[id].inTried && index < st.nNew && index in ld.infos && OldId(st, index) == id
      && !ld.infos[index].inTried && s == NewSlot(ld.env, ld.key, ld.infos[index].service, s.bucket)
      && s.bucket < NEW_BUCKET_COUNT
  {
    hide RandomOk, AddrOk, RefOk, TriedOk, CountOk, OldId, NewSlot, UnkId, EntriesOk;
    var id := st.newTab[s];
    assert NewSlotOk(st.env, st.key, st.infos, s, id);
    RenamedInverse(st, id);
    ProperIds(st, id);
    var index := Renamed(st, id);
    assert index == UnkId(st.infos, id);
    assert SameDisk(st.infos, OldId(st, index), ld.infos[index]);
  }

  lemma ProperIds(st: State, id: int)
    requires Inv(st) && id in st.infos
    ensures id >= 0 && (!st.infos[id].inTried ==> st.infos[id].refCount <= NEW_BUCKETS_PER_ADDRESS)
  {
    assert EntryOk(st.infos[id], false);
  }

  /** Fewer references than the limit have been restored while one is still missing. */
  lemma RoomForRef(st: State, ld: State, b: nat, i: nat, homeless: set<int>)
    requires Inv(st) && Loose(ld, homeless, 0) && Holds(st, ld, st.nNew + st.nTried)
    requires Refs(st, ld, b, i) && Slot(b, i) in st.newTab
    ensures
      var index := UnkId(st.infos, st.newTab[Slot(b, i)]);
      index in ld.infos && ld.infos[index].refCount < NEW_BUCKETS_PER_ADDRESS
  {
    hide RandomOk, AddrOk, TriedOk, CountOk, OldId, NewSlot, UnkId, EntriesOk, NewOk;
    var s := Slot(b, i);
    SlotOwner(st, ld, s);
    var id := st.newTab[s];
    var index := UnkId(st.infos, id);
    var mine, all := SlotsOf(ld.newTab, index), SlotsOf(st.newTab, id);
    forall t | t in mine
      ensures t in all && t != s
    {
      SlotOwner(st, ld, t);
    }
    assert s in all && mine <= all - {s};
    SubsetSize(mine, all - {s});
    assert |all - {s}| == |all| - 1;
    ProperIds(st, id);
  }

  lemma RefStep(st: State, ld: State, b: nat, i: nat, homeless: set<int>)
    requires Inv(st) && Loose(ld, homeless, 0) && Holds(st, ld, st.nNew + st.nTried)
    requires Refs(st, ld, b, i) && Slot(b, i) in st.newTab
    ensures
      var index := UnkId(st.infos, st.newTab[Slot(b, i)]);
      var ld' := LoadRef(ld, b, index, true);
      && Loose(ld', homeless - {index}, 0) && Holds(st, ld', st.nNew + st.nTried)
      && Refs(st, ld', b, i + 1)
      && ld'.triedTab == ld.triedTab && ld'.nTried == ld.nTried && ld'.addrs == ld.addrs
  {
    hide RandomOk, AddrOk, TriedOk, CountOk, OldId, NewSlot, UnkId, EntriesOk, NewOk, RefOk;
    var s := Slot(b, i);
    SlotOwner(st, ld, s);
    RoomForRef(st, ld, b, i, homeless);
    var index := UnkId(st.infos, st.newTab[s]);
    assert s !in ld.newTab;
    OccupyLoose(ld, s, index, homeless, 0);
    assert LoadRef(ld, b, index, true) == Occupy(ld, s, index);
    OccupyHolds(st, ld, s, index, st.nNew + st.nTried);
    OccupyRefs(st, ld, b, i, index);
  }

  lemma OccupyHolds(st: State, ld: State, s: Slot, index: int, k: nat)
    requires Holds(st, ld, k) && index in ld.infos
    ensures Holds(st, Occupy(ld, s, index), k)
  {
    hide OldId;
  }

  lemma OccupyRefs(st: State, ld: State, b: nat, i: nat, index: int)
    requires Refs(st, ld, b, i) && Slot(b, i) in st.newTab && index in ld.infos
    requires index == UnkId(st.infos, st.newTab[Slot(b, i)])
    ensures Refs(st, Occupy(ld, Slot(b, i), index), b, i + 1)
  {
    hide UnkId;
    var s, ld' := Slot(b, i), Occupy(ld, Slot(b, i), index);
    forall t: Slot
      ensures t in ld'.newTab <==> t in st.newTab && Before(t, b, i + 1)
      ensures t in ld'.newTab ==> ld'.newTab[t] == UnkId(st.infos, st.newTab[t])
    {
      assert Before(t, b, i + 1) <==> Before(t, b, i) || t == s;
    }
  }

  /** Everything that the restored positions leave as it was. */
  ghost predicate Rest(ld: State, ld': State) {
    ld'.triedTab == ld.triedTab && ld'.nTried == ld.nTried && ld'.addrs == ld.addrs
  }

  lemma {:induction false} BucketStage(st: State, ld: State, b: nat, i: nat, homeless: set<int>)
      returns (homeless': set<int>)
    requires Inv(st) && Loose(ld, homeless, 0) && Holds(st, ld, st.nNew + st.nTried)
    requires Refs(st, ld, b, 0)
    ensures
      var ld' := LoadBucket(ld, b, BucketList(st, b, i), true);
      && Loose(ld', homeless', 0) && Holds(st, ld', st.nNew + st.nTried) && Refs(st, ld', b, i)
      && Rest(ld, ld')
  {
    hide Loose, Holds, Refs, Inv, LoadRef, UnkId;
    if i == 0 {
      homeless' := homeless;
    } else {
      homeless' := BucketStage(st, ld, b, i - 1, homeless);
      var list := BucketList(st, b, i - 1);
      var ld1 := LoadBucket(ld, b, list, true);
      if Slot(b, i - 1) in st.newTab {
        RefStep(st, ld1, b, i - 1, homeless');
        var index := UnkId(st.infos, st.newTab[Slot(b, i - 1)]);
        assert BucketList(st, b, i) == list + [index];
        assert (list + [index])[..|list|] == list;
        homeless' := homeless' - {index};
      } else {
        assert BucketList(st, b, i) == list;
        RefsSkip(st, ld1, b, i - 1);
      }
    }
  }

  lemma RefsSkip(st: State, ld: State, b: nat, i: nat)
    requires Refs(st, ld, b, i) && Slot(b, i) !in st.newTab
    ensures Refs(st, ld, b, i + 1)
  {
    hide UnkId;
    forall t: Slot
      ensures t in st.newTab && Before(t, b, i + 1) <==> t in st.newTab && Before(t, b, i)
    {
      assert Before(t, b, i + 1) <==> Before(t, b, i) || t == Slot(b, i);
    }
  }

  lemma {:induction false} BucketsStage(st: State, ld: State, b: nat, homeless: set<int>)
      returns (homeless': set<int>)
    requires Inv(st) && Loose(ld, homeless, 0) && Holds(st, ld, st.nNew + st.nTried)
    requires ld.newTab == map[] && b <= NEW_BUCKET_COUNT
    ensures
      var ld' := LoadBuckets(ld, Save(st).buckets[..b], true);
      && Loose(ld', homeless', 0) && Holds(st, ld', st.nNew + st.nTried) && Refs(st, ld', b, 0)
      && Rest(ld, ld')
  {
    hide Loose, Holds, Inv, LoadBucket, UnkId;
    var buckets := Save(st).buckets;
    if b == 0 {
      homeless' := homeless;
    } else {
      hide Refs;
      homeless' := BucketsStage(st, ld, b - 1, homeless);
      var ld1 := LoadBuckets(ld, buckets[..b - 1], true);
      assert buckets[..b][..b - 1] == buckets[..b - 1];
      homeless' := BucketStage(st, ld1, b - 1, BUCKET_SIZE, homeless');
      RefsNextBucket(st, LoadBucket(ld1, b - 1, buckets[b - 1], true), b - 1);
    }
  }

  lemma RefsNextBucket(st: State, ld: State, b: nat)
    requires Inv(st) && Refs(st, ld, b, BUCKET_SIZE)
    ensures Refs(st, ld, b + 1, 0)
  {
    hide RandomOk, AddrOk, RefOk, TriedOk, CountOk, EntriesOk, UnkId;
    forall t: Slot | t in st.newTab
      ensures Before(t, b, BUCKET_SIZE) <==> Before(t, b + 1, 0)
    {
      assert NewSlotOk(st.env, st.key, st.infos, t, st.newTab[t]);
    }
  }

  // ---------------------------------------------------------------- pruning and loading a whole file

  /** Each entry has its place in the list of ids, and ids are below the counter. */
  ghost predicate Numbered(st: State) {
    RandomOk(st.infos, st.random) && forall id: int :: id in st.infos ==> 0 <= id < st.idCount
  }

  lemma AddEntryNumbered(st: State, id: nat, info: Info)
    requires Numbered(st) && st.idCount <= id && info.randomPos == |st.random|
    ensures Numbered(AddEntry(st, id, info))
  {
    var st' := AddEntry(st, id, info);
    forall i | 0 <= i < |st'.random|
      ensures PlacedAt(st'.infos, st'.random[i], i)
    {
      if i < |st.random| {
        assert PlacedAt(st.infos, st.random[i], i);
      }
    }
  }

  lemma OccupyNumbered(st: State, s: Slot, id: int)
    requires Numbered(st) && id in st.infos
    ensures Numbered(Occupy(st, s, id))
  {
    SameRandom(st.infos, Occupy(st, s, id).infos, st.random);
  }

  lemma {:induction false} LoadNewNumbered(st: State, items: seq<Disk>, usable: bool)
    requires Numbered(st) && st.idCount == 0
    ensures Numbered(LoadNew(st, items, usable)) && LoadNew(st, items, usable).idCount == |items|
  {
    hide Numbered, NewSlot;
    if items != [] {
      var n := |items| - 1;
      LoadNewNumbered(st, items[..n], usable);
      var ld := LoadNew(st, items[..n], usable);
      var info := FromDisk(items[n], |ld.random|);
      AddEntryNumbered(ld, n, info);
      OccupyNumbered(AddEntry(ld, n, info), NewSlot(ld.env, ld.key, items[n].service,
        NewBucket(ld.env, ld.key, items[n].service, items[n].source)), n);
    }
  }

  lemma {:induction false} LoadTriedNumbered(st: State, items: seq<Disk>)
    requires Numbered(st)
    ensures Numbered(LoadTried(st, items))
  {
    hide RandomOk, TriedSlot;
    if items != [] {
      var n := |items| - 1;
      LoadTriedNumbered(st, items[..n]);
      var ld := LoadTried(st, items[..n]);
      AddEntryNumbered(ld, ld.idCount, FromDisk(items[n], |ld.random|).(inTried := true));
    }
  }

  lemma {:induction false} LoadBucketNumbered(st: State, b: nat, refs: seq<int>, usable: bool)
    requires Numbered(st)
    ensures Numbered(LoadBucket(st, b, refs, usable))
  {
    hide Numbered, NewSlot, Occupy;
    if refs != [] {
      var n := |refs| - 1;
      LoadBucketNumbered(st, b, refs[..n], usable);
      var ld := LoadBucket(st, b, refs[..n], usable);
      var index := refs[n];
      if index in ld.infos {
        OccupyNumbered(ld, NewSlot(ld.env, ld.key, ld.infos[index].service, b), index);
      }
    }
  }

  lemma {:induction false} LoadBucketsNumbered(st: State, buckets: seq<seq<int>>, usable: bool)
    requires Numbered(st)
    ensures Numbered(LoadBuckets(st, buckets, usable))
  {
    hide Numbered;
    if buckets != [] {
      var b := |buckets| - 1;
      LoadBucketsNumbered(st, buckets[..b], usable);
      LoadBucketNumbered(LoadBuckets(st, buckets[..b], usable), b, buckets[b], usable);
    }
  }

  lemma DeleteNumbered(st: State, id: int)
    requires Numbered(st) && id in st.infos && !st.infos[id].inTried && st.infos[id].refCount == 0
    ensures Numbered(Delete(st, id))
  {
    hide Swapped;
    var i, j := st.infos[id].randomPos, |st.random| - 1;
    assert PlacedAt(st.infos, st.random[i], i) && PlacedAt(st.infos, st.random[j], j);
    if i != j {
      SwapRandomOk(st.infos, st.random, i, j);
      SwapSameIds(st.infos, st.random, i, j);
    }
    SwapMoves(st, id, i, j);
    DropNumbered(SwapRandom(st, i, j), id);
  }

  lemma SwapSameIds(infos: Infos, random: seq<int>, i: nat, j: nat)
    requires i < |random| && j < |random| && random[i] in infos && random[j] in infos
    ensures forall x: int :: x in Swapped(infos, random, i, j) <==> x in infos
  {
  }

  lemma DropNumbered(st: State, id: int)
    requires Numbered(st) && PlacedAt(st.infos, id, |st.random| - 1)
    ensures Numbered(DropLast(st, id))
  {
    var n, st' := |st.random| - 1, DropLast(st, id);
    forall i | 0 <= i < n
      ensures PlacedAt(st'.infos, st'.random[i], i)
    {
      assert PlacedAt(st.infos, st.random[i], i);
    }
  }

  /** Drops the entries below `n` that ended up without any reference. */
  ghost function Prune(st: State, n: nat): (st': State)
    requires Numbered(st)
    ensures Numbered(st')
  {
    if n == 0 then st else
      var st1 := Prune(st, n - 1);
      if n - 1 in st1.infos && !st1.infos[n - 1].inTried && st1.infos[n - 1].refCount == 0
      then DeleteNumbered(st1, n - 1); Delete(st1, n - 1) else st1
  }

  lemma {:induction false} PruneNothing(st: State, n: nat)
    requires Inv(st)
    ensures Numbered(st) && Prune(st, n) == st
  {
    hide RandomOk, AddrOk, NewOk, RefOk, TriedOk, CountOk, Delete;
    if n > 0 {
      PruneNothing(st, n - 1);
      assert n - 1 in st.infos ==> EntryOk(st.infos[n - 1], false);
    }
  }

  datatype Loaded = Rejected | Accepted(state: State)

  /** What Unserialize makes of a file. */
  ghost function Load(env: Env, file: File): Loaded
    requires Complete(file)
  {
    if file.keySize != 32 || file.nNew > NEW_BUCKET_COUNT * BUCKET_SIZE
       || file.nTried > TRIED_BUCKET_COUNT * BUCKET_SIZE
    then Rejected
    else
      var st0 := Clear(env, file.key).(nNew := file.nNew, nTried := file.nTried);
      var st1 := LoadNew(st0, file.newInfos, Usable(file));
      var st2 := LoadTried(st1, file.triedInfos);
      var st3 := LoadBuckets(st2, file.buckets, Usable(file));
      LoadNewNumbered(st0, file.newInfos, Usable(file));
      LoadTriedNumbered(st1, file.triedInfos);
      LoadBucketsNumbered(st2, file.buckets, Usable(file));
      Accepted(Prune(st3, st3.idCount))
  }

  // ---------------------------------------------------------------- the size limits

  lemma {:induction false} SlotSetSize(slots: set<Slot>, buckets: nat, size: nat)
    requires forall s :: s in slots ==> s.bucket < buckets && s.pos < size
    ensures |slots| <= buckets * size
  {
    if buckets == 0 {
      assert slots == {};
    } else {
      var last := set s | s in slots && s.bucket == buckets - 1;
      SlotSetSize(slots - last, buckets - 1, size);
      OneBucketSize(last, buckets - 1, size);
      assert slots == (slots - last) + last;
      assert buckets * size == (buckets - 1) * size + size;
    }
  }

  lemma {:induction false} OneBucketSize(slots: set<Slot>, b: nat, size: nat)
    requires forall s :: s in slots ==> s.bucket == b && s.pos < size
    ensures |slots| <= size
  {
    if size == 0 {
      assert slots == {};
    } else {
      var s := Slot(b, size - 1);
      forall t | t in slots - {s}
        ensures t.pos < size - 1
      {
      }
      OneBucketSize(slots - {s}, b, size - 1);
      if s in slots {
        assert slots == (slots - {s}) + {s};
      } else {
        assert slots == slots - {s};
      }
    }
  }

  lemma {:induction false} OwnersSize(tab: Table, owners: set<int>)
    requires forall id: int :: id in owners ==> SlotsOf(tab, id) != {}
    ensures |owners| <= |tab|
  {
    if owners != {} {
      var id := Member(owners);
      var s :| s in SlotsOf(tab, id);
      var rest := owners - {id};
      forall x: int | x in rest
        ensures SlotsOf(tab - {s}, x) != {}
      {
        assert SlotsOf(tab - {s}, x) == SlotsOf(tab, x);
      }
      OwnersSize(tab - {s}, rest);
      assert |tab - {s}| == |tab| - 1 by {
        assert (tab - {s}).Keys == tab.Keys - {s};
      }
    }
  }

  lemma WithinLimits(st: State)
    requires Inv(st)
    ensures 0 <= st.nNew <= NEW_BUCKET_COUNT * BUCKET_SIZE
    ensures 0 <= st.nTried <= TRIED_BUCKET_COUNT * BUCKET_SIZE
  {
    hide RandomOk, AddrOk;
    forall s | s in st.newTab.Keys
      ensures s.bucket < NEW_BUCKET_COUNT && s.pos < BUCKET_SIZE
    {
      assert NewSlotOk(st.env, st.key, st.infos, s, st.newTab[s]);
    }
    forall s | s in st.triedTab.Keys
      ensures s.bucket < TRIED_BUCKET_COUNT && s.pos < BUCKET_SIZE
    {
      assert TriedSlotOk(st.env, st.key, st.infos, s, st.triedTab[s]);
    }
    SlotSetSize(st.newTab.Keys, NEW_BUCKET_COUNT, BUCKET_SIZE);
    SlotSetSize(st.triedTab.Keys, TRIED_BUCKET_COUNT, BUCKET_SIZE);
    OwnersHaveSlots(st);
    OwnersSize(st.newTab, NewIds(st.infos));
    OwnersSize(st.triedTab, TriedIds(st.infos));
  }

  lemma OwnersHaveSlots(st: State)
    requires Inv(st)
    ensures forall id: int :: id in NewIds(st.infos) ==> SlotsOf(st.newTab, id) != {}
    ensures forall id: int :: id in TriedIds(st.infos) ==> SlotsOf(st.triedTab, id) != {}
  {
    hide RandomOk, AddrOk, CountOk, NewSlot, TriedSlot;
    forall id: int | id in NewIds(st.infos)
      ensures SlotsOf(st.newTab, id) != {}
    {
      assert EntryOk(st.infos[id], false);
    }
    forall id: int | id in TriedIds(st.infos)
      ensures SlotsOf(st.triedTab, id) != {}
    {
      assert TriedSlot(st.env, st.key, st.infos[id].service) in SlotsOf(st.triedTab, id);
    }
  }

  // ---------------------------------------------------------------- the round trip

  /** Table `tab'` is `tab` with every id renamed. */
  ghost predicate SameTable(st: State, tab: Table, tab': Table) {
    forall s: Slot ::
      && (s in tab' <==> s in tab)
      && (s in tab ==> tab'[s] == Renamed(st, tab[s]))
  }

  ghost predicate SameEntry(info: Info, infos': Infos, n: int) {
    && n in infos' && DiskOf(infos'[n]) == DiskOf(info)
    && infos'[n].refCount == info.refCount && infos'[n].inTried == info.inTried
  }

  /** The same manager up to the numbering of entries, their order and memory-only statistics. */
  ghost predicate Equivalent(st: State, ld: State) {
    && ld.env == st.env && ld.key == st.key && ld.nNew == st.nNew && ld.nTried == st.nTried
    && (forall id: int :: id in st.infos ==> SameEntry(st.infos[id], ld.infos, Renamed(st, id)))
    && (forall n: int :: n in ld.infos ==> OldId(st, n) in st.infos && Renamed(st, OldId(st, n)) == n)
    && (forall id: int :: id in st.infos ==> OldId(st, Renamed(st, id)) == id)
    && SameTable(st, st.newTab, ld.newTab)
    && SameTable(st, st.triedTab, ld.triedTab)
  }

  lemma LoadedIsInv(st: State, ld: State, homeless: set<int>)
    requires Inv(st) && Loose(ld, homeless, 0) && Holds(st, ld, st.nNew + st.nTried)
    requires Refs(st, ld, NEW_BUCKET_COUNT, 0)
    ensures Inv(ld)
  {
    hide RandomOk, AddrOk, TriedOk, CountOk, OldId, NewSlot, UnkId, EntriesOk, NewOk, RefOk;
    forall n: int
      ensures n !in homeless
    {
      if n in homeless {
        HomelessFacts(ld, n, homeless, 0);
        HasSlotAgain(st, ld, n);
      }
    }
    assert homeless == {};
  }

  /** Every entry of the new table gets at least one of its slots back. */
  lemma HasSlotAgain(st: State, ld: State, n: int)
    requires Inv(st) && Holds(st, ld, st.nNew + st.nTried) && Refs(st, ld, NEW_BUCKET_COUNT, 0)
    requires n in ld.infos && !ld.infos[n].inTried
    ensures SlotsOf(ld.newTab, n) != {}
  {
    hide RandomOk, AddrOk, TriedOk, CountOk, OldId, NewSlot, UnkId, EntriesOk, NewOk, RefOk;
    OldIdFacts(st, n);
    var id := OldId(st, n);
    OwnersHaveSlots(st);
    assert id in NewIds(st.infos);
    var s :| s in SlotsOf(st.newTab, id);
    SlotOwner(st, ld, s);
    ProperIds(st, id);
    assert UnkId(st.infos, id) == n;
    assert s in SlotsOf(ld.newTab, n);
  }

  lemma NewTableSame(st: State, ld: State)
    requires Inv(st) && Holds(st, ld, st.nNew + st.nTried) && Refs(st, ld, NEW_BUCKET_COUNT, 0)
    ensures SameTable(st, st.newTab, ld.newTab)
  {
    hide RandomOk, AddrOk, TriedOk, CountOk, OldId, NewSlot, UnkId, EntriesOk, NewOk, RefOk;
    forall s: Slot | s in st.newTab
      ensures s in ld.newTab && ld.newTab[s] == Renamed(st, st.newTab[s])
    {
      SlotOwner(st, ld, s);
      ProperIds(st, st.newTab[s]);
    }
  }

  lemma TriedTableSame(st: State, ld: State)
    requires Inv(st) && Inv(ld) && Holds(st, ld, st.nNew + st.nTried)
    ensures SameTable(st, st.triedTab, ld.triedTab)
  {
    hide RandomOk, AddrOk, CountOk, OldId, TriedSlot, EntriesOk, NewOk, RefOk, Renamed;
    forall s: Slot | s in st.triedTab
      ensures s in ld.triedTab && ld.triedTab[s] == Renamed(st, st.triedTab[s])
    {
      var id := st.triedTab[s];
      assert TriedSlotOk(st.env, st.key, st.infos, s, id);
      RenamedInverse(st, id);
      var n := Renamed(st, id);
      assert SameDisk(st.infos, OldId(st, n), ld.infos[n]);
    }
    forall s: Slot | s in ld.triedTab
      ensures s in st.triedTab
    {
      var n := ld.triedTab[s];
      assert TriedSlotOk(ld.env, ld.key, ld.infos, s, n);
      OldIdFacts(st, n);
      assert SameDisk(st.infos, OldId(st, n), ld.infos[n]);
    }
  }

  lemma EntrySame(st: State, ld: State, id: int)
    requires Inv(st) && Inv(ld) && Holds(st, ld, st.nNew + st.nTried)
    requires SameTable(st, st.newTab, ld.newTab) && id in st.infos
    ensures SameEntry(st.infos[id], ld.infos, Renamed(st, id))
  {
    hide RandomOk, AddrOk, TriedOk, CountOk, OldId, NewSlot, EntriesOk, Renamed;
    RenamedInverse(st, id);
    var n := Renamed(st, id);
    assert SameDisk(st.infos, OldId(st, n), ld.infos[n]);
    assert SlotsOf(ld.newTab, n) == SlotsOf(st.newTab, id) by {
      forall s: Slot | s in SlotsOf(ld.newTab, n)
        ensures s in SlotsOf(st.newTab, id)
      {
        assert NewSlotOk(st.env, st.key, st.infos, s, st.newTab[s]);
        RenamedInverse(st, st.newTab[s]);
      }
    }
  }

  /**
   Saving a consistent manager and loading the file gives back the same manager, up to
   renumbering: same key and counts, the same entries with the same reference counts, and the
   same occupant in every slot of both tables. Nothing is lost to collisions.
   */
  lemma SaveLoadRoundTrip(st: State)
    requires Inv(st)
    ensures Complete(Save(st))
    ensures Load(st.env, Save(st)).Accepted?
    ensures Inv(Load(st.env, Save(st)).state)
    ensures Equivalent(st, Load(st.env, Save(st)).state)
  {
    hide RandomOk, AddrOk, TriedOk, CountOk, OldId, NewSlot, EntriesOk, NewOk, RefOk, Holds, Renamed,
         LoadNew, LoadTried, LoadBuckets, NewSeq, TriedSeq, UnkId;
    var file := Save(st);
    SeqSizes(st);
    WithinLimits(st);
    FlipTwice();
    LoadTriedStage(st, st.nTried);
    assert file.triedInfos[..st.nTried] == file.triedInfos;
    var ld2 := LoadTried(LoadNew(Blank(st), file.newInfos, true), file.triedInfos);
    assert ld2.(nTried := st.nTried) == ld2;
    var homeless := BucketsStage(st, ld2, NEW_BUCKET_COUNT, Range(st.nNew));
    assert file.buckets[..NEW_BUCKET_COUNT] == file.buckets;
    var ld := LoadBuckets(ld2, file.buckets, true);
    LoadedIsInv(st, ld, homeless);
    PruneNothing(ld, ld.idCount);
    NewTableSame(st, ld);
    TriedTableSame(st, ld);
    EntriesSame(st, ld);
  }

  lemma FlipTwice()
    ensures FlipBit30(FlipBit30(NEW_BUCKET_COUNT)) == NEW_BUCKET_COUNT
  {
  }

  lemma EntriesSame(st: State, ld: State)
    requires Inv(st) && Inv(ld) && Holds(st, ld, st.nNew + st.nTried) && ld.nTried == st.nTried
    requires SameTable(st, st.newTab, ld.newTab) && SameTable(st, st.triedTab, ld.triedTab)
    ensures Equivalent(st, ld)
  {
    hide Inv, OldId, Renamed;
    forall id: int | id in st.infos
      ensures SameEntry(st.infos[id], ld.infos, Renamed(st, id)) && OldId(st, Renamed(st, id)) == id
    {
      EntrySame(st, ld, id);
      RenamedInverse(st, id);
    }
    forall n: int | n in ld.infos
      ensures OldId(st, n) in st.infos && Renamed(st, OldId(st, n)) == n
    {
      OldIdFacts(st, n);
    }
  }
}
