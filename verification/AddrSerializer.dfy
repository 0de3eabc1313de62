/** Serialize and Unserialize as they run over the manager object. */
module AddrSerializer {
  import opened AddrTables
  import opened AddrManager
  import opened AddrFile

  // ---------------------------------------------------------------- Serialize

  /** Writes the entries of the new table; the counter never reaches `nNew` before a write. */
  method WriteNew(man: AddrMan) returns (mapUnkIds: map<int, int>, infos: seq<Disk>)
    requires man.Valid()
    ensures infos == Save(man.Value()).newInfos
    ensures forall id: int :: id in man.mapInfo ==> id in mapUnkIds && mapUnkIds[id] == UnkId(man.mapInfo, id)
  {
    hide RandomOk, AddrOk, NewOk, RefOk, TriedOk, CountOk, TableOf;
    ghost var st := man.Value();
    SeqSizes(st);
    mapUnkIds, infos := map[], [];
    var nIds := 0;
    for id := 0 to man.nIdCount
      invariant nIds == |infos| == |NewSeq(man.mapInfo, id)|
      invariant forall i :: 0 <= i < |infos| ==> HasDisk(man.mapInfo, NewSeq(man.mapInfo, id)[i], infos[i])
      invariant forall x: int :: x in man.mapInfo && x < id ==>
        x in mapUnkIds && mapUnkIds[x] == UnkId(man.mapInfo, x)
    {
      if id in man.mapInfo {
        mapUnkIds := mapUnkIds[id := nIds];
        var info := man.mapInfo[id];
        if info.refCount != 0 {
          NewSeqIndex(man.mapInfo, man.nIdCount, id);
          assert nIds != man.nNew;
          infos := infos + [DiskOf(info)];
          nIds := nIds + 1;
        }
      }
    }
    NewSeqFacts(man.mapInfo, man.nIdCount);
    assert infos == Save(st).newInfos by {
      AllDisks(man.mapInfo, NewSeq(man.mapInfo, man.nIdCount), infos);
    }
  }

  predicate HasDisk(infos: Infos, id: int, d: Disk) {
    id in infos && DiskOf(infos[id]) == d
  }

  lemma AllDisks(infos: Infos, ids: seq<int>, disks: seq<Disk>)
    requires forall i :: 0 <= i < |ids| ==> Has(infos, ids[i])
    requires |ids| == |disks| && forall i :: 0 <= i < |ids| ==> HasDisk(infos, ids[i], disks[i])
    ensures disks == Disks(infos, ids)
  {
  }

  method WriteTried(man: AddrMan) returns (infos: seq<Disk>)
    requires man.Valid()
    ensures infos == Save(man.Value()).triedInfos
  {
    hide RandomOk, AddrOk, NewOk, RefOk, TriedOk, CountOk, TableOf;
    ghost var st := man.Value();
    SeqSizes(st);
    infos := [];
    var nIds := 0;
    for id := 0 to man.nIdCount
      invariant nIds == |infos| == |TriedSeq(man.mapInfo, id)|
      invariant forall i :: 0 <= i < |infos| ==> HasDisk(man.mapInfo, TriedSeq(man.mapInfo, id)[i], infos[i])
    {
      if id in man.mapInfo {
        var info := man.mapInfo[id];
        if info.inTried {
          TriedSeqIndex(man.mapInfo, man.nIdCount, id);
          assert nIds != man.nTried;
          infos := infos + [DiskOf(info)];
          nIds := nIds + 1;
        }
      }
    }
    TriedSeqFacts(man.mapInfo, man.nIdCount);
    assert infos == Save(st).triedInfos by {
      AllDisks(man.mapInfo, TriedSeq(man.mapInfo, man.nIdCount), infos);
    }
  }

  method WriteBucket(man: AddrMan, bucket: nat, mapUnkIds: map<int, int>) returns (refs: seq<int>)
    requires man.Valid() && bucket < NEW_BUCKET_COUNT
    requires forall id: int :: id in man.mapInfo ==> id in mapUnkIds && mapUnkIds[id] == UnkId(man.mapInfo, id)
    ensures refs == BucketList(man.Value(), bucket, BUCKET_SIZE)
  {
    hide RandomOk, AddrOk, RefOk, TriedOk, CountOk, EntriesOk, TableOf, UnkId;
    ghost var st := man.Value();
    refs := [];
    for i := 0 to BUCKET_SIZE
      invariant refs == BucketList(st, bucket, i)
    {
      TableAt(man.vvNew, bucket, i);
      var id := man.vvNew[bucket, i];
      if id != -1 {
        assert NewSlotOk(st.env, st.key, st.infos, Slot(bucket, i), id);
        refs := refs + [mapUnkIds[id]];
      }
    }
  }

  method Serialize(man: AddrMan) returns (file: File)
    requires man.Valid()
    ensures file == Save(man.Value())
  {
    hide Inv, TableOf;
    var mapUnkIds, newInfos := WriteNew(man);
    var triedInfos := WriteTried(man);
    var buckets: seq<seq<int>> := [];
    for bucket := 0 to NEW_BUCKET_COUNT
      invariant |buckets| == bucket
      invariant forall b :: 0 <= b < bucket ==> buckets[b] == BucketList(man.Value(), b, BUCKET_SIZE)
    {
      var refs := WriteBucket(man, bucket, mapUnkIds);
      buckets := buckets + [refs];
    }
    file := File(1, 32, man.nKey, man.nNew, man.nTried, FlipBit30(NEW_BUCKET_COUNT), newInfos,
                 triedInfos, buckets);
    assert file.buckets == Save(man.Value()).buckets;
  }

  // ---------------------------------------------------------------- Unserialize

  method ClearTable(a: array2<int>)
    modifies a
    ensures TableOf(a) == map[]
  {
    for bucket := 0 to a.Length0
      invariant forall b, p :: 0 <= b < bucket && 0 <= p < a.Length1 ==> a[b, p] == -1
    {
      for entry := 0 to a.Length1
        invariant forall b, p :: 0 <= b < bucket && 0 <= p < a.Length1 ==> a[b, p] == -1
        invariant forall p :: 0 <= p < entry ==> a[bucket, p] == -1
      {
        a[bucket, entry] := -1;
      }
    }
    assert TableOf(a).Keys == {};
  }

  method ReadNew(man: AddrMan, items: seq<Disk>, usable: bool)
    requires man.Shaped() && man.nIdCount == 0
    modifies man, man.vvNew
    ensures man.Value() == LoadNew(old(man.Value()), items, usable)
  {
    hide TableOf;
    ghost var st := man.Value();
    for n := 0 to |items|
      invariant man.nIdCount == 0
      invariant man.Value().(idCount := n) == LoadNew(st, items[..n], usable)
    {
      ghost var ld := LoadNew(st, items[..n], usable);
      assert items[..n + 1][..n] == items[..n];
      var info := FromDisk(items[n], -1);
      man.mapAddr := man.mapAddr[info.service.net := n];
      info := info.(randomPos := |man.vRandom|);
      man.vRandom := man.vRandom + [n];
      man.mapInfo := man.mapInfo[n := info];
      assert man.Value().(idCount := n + 1) == AddEntry(ld, n, FromDisk(items[n], |ld.random|));
      if !usable {
        PrimaryRef(man, n, ld, items[n]);
      }
    }
    assert items[..|items|] == items;
    man.nIdCount := |items|;
  }

  /** Without usable positions an entry gets the slot of its own source, if that is free. */
  method PrimaryRef(man: AddrMan, n: nat, ghost ld: State, ghost d: Disk)
    requires man.Shaped() && man.nIdCount == 0
    requires man.Value().(idCount := n + 1) == AddEntry(ld, n, FromDisk(d, |ld.random|))
    modifies man, man.vvNew
    ensures man.nIdCount == 0
    ensures man.Value().(idCount := n + 1) == LoadNewItem(ld, n, d, false)
  {
    hide TableOf;
    var info := man.mapInfo[n];
    var nUBucket := NewBucket(man.env, man.nKey, info.service, info.source);
    var nUBucketPos := Position(man.env, man.nKey, true, nUBucket, info.service);
    TableAt(man.vvNew, nUBucket, nUBucketPos);
    if man.vvNew[nUBucket, nUBucketPos] == -1 {
      Fill(man.vvNew, nUBucket, nUBucketPos, n);
      man.mapInfo := man.mapInfo[n := info.(refCount := info.refCount + 1)];
    }
  }

  /** Reads one tried entry, unless its slot is taken. */
  method ReadTriedItem(man: AddrMan, d: Disk) returns (lost: bool)
    requires man.Shaped()
    modifies man, man.vvTried
    ensures man.Value().(nTried := man.nTried - if lost then 1 else 0) == LoadTriedItem(old(man.Value()), d)
  {
    hide TableOf;
    var info := FromDisk(d, -1);
    var nKBucket := TriedBucket(man.env, man.nKey, info.service);
    var nKBucketPos := Position(man.env, man.nKey, false, nKBucket, info.service);
    TableAt(man.vvTried, nKBucket, nKBucketPos);
    lost := man.vvTried[nKBucket, nKBucketPos] != -1;
    if !lost {
      info := info.(randomPos := |man.vRandom|, inTried := true);
      man.vRandom := man.vRandom + [man.nIdCount];
      man.mapInfo := man.mapInfo[man.nIdCount := info];
      man.mapAddr := man.mapAddr[info.service.net := man.nIdCount];
      Fill(man.vvTried, nKBucket, nKBucketPos, man.nIdCount);
      man.nIdCount := man.nIdCount + 1;
    }
  }

  lemma TriedItemShift(st: State, d: Disk, k: int)
    ensures LoadTriedItem(st.(nTried := k), d).(nTried := LoadTriedItem(st, d).nTried) == LoadTriedItem(st, d)
    ensures LoadTriedItem(st.(nTried := k), d).nTried - k == LoadTriedItem(st, d).nTried - st.nTried
  {
    hide TriedSlot;
  }

  method ReadTried(man: AddrMan, items: seq<Disk>)
    requires man.Shaped()
    modifies man, man.vvTried
    ensures man.Value() == LoadTried(old(man.Value()), items)
  {
    hide TableOf, LoadTriedItem;
    ghost var st := man.Value();
    var nLost := 0;
    for n := 0 to |items|
      invariant man.Value().(nTried := man.nTried - nLost) == LoadTried(st, items[..n])
    {
      assert items[..n + 1][..n] == items[..n];
      ghost var ld := LoadTried(st, items[..n]);
      ghost var now := man.Value();
      assert now == ld.(nTried := now.nTried);
      TriedItemShift(ld, items[n], now.nTried);
      var lost := ReadTriedItem(man, items[n]);
      if lost {
        nLost := nLost + 1;
      }
    }
    assert items[..|items|] == items;
    man.nTried := man.nTried - nLost;
  }

  method ReadBucket(man: AddrMan, bucket: nat, refs: seq<int>, usable: bool)
    requires man.Shaped() && (usable ==> bucket < NEW_BUCKET_COUNT)
    modifies man, man.vvNew
    ensures man.Value() == LoadBucket(old(man.Value()), bucket, refs, usable)
  {
    hide TableOf;
    ghost var st := man.Value();
    for n := 0 to |refs|
      invariant man.Value() == LoadBucket(st, bucket, refs[..n], usable)
    {
      assert refs[..n + 1][..n] == refs[..n];
      var nIndex := refs[n];
      if 0 <= nIndex < man.nNew && nIndex in man.mapInfo {
        var info := man.mapInfo[nIndex];
        var nUBucketPos := Position(man.env, man.nKey, true, bucket, info.service);
        if usable {
          TableAt(man.vvNew, bucket, nUBucketPos);
          if man.vvNew[bucket, nUBucketPos] == -1 && info.refCount < NEW_BUCKETS_PER_ADDRESS {
            man.mapInfo := man.mapInfo[nIndex := info.(refCount := info.refCount + 1)];
            Fill(man.vvNew, bucket, nUBucketPos, nIndex);
          }
        }
      }
    }
    assert refs[..|refs|] == refs;
  }

  method ReadBuckets(man: AddrMan, buckets: seq<seq<int>>, usable: bool)
    requires man.Shaped() && (usable ==> |buckets| <= NEW_BUCKET_COUNT)
    modifies man, man.vvNew
    ensures man.Value() == LoadBuckets(old(man.Value()), buckets, usable)
  {
    hide TableOf;
    ghost var st := man.Value();
    for bucket := 0 to |buckets|
      invariant man.Value() == LoadBuckets(st, buckets[..bucket], usable)
    {
      assert buckets[..bucket + 1][..bucket] == buckets[..bucket];
      ReadBucket(man, bucket, buckets[bucket], usable);
    }
    assert buckets[..|buckets|] == buckets;
  }

  method PruneAll(man: AddrMan)
    requires man.Shaped() && Numbered(man.Value())
    modifies man
    ensures man.Value() == Prune(old(man.Value()), old(man.nIdCount))
  {
    hide TableOf, RandomOk, Delete;
    ghost var st := man.Value();
    var n := man.nIdCount;
    for id := 0 to n
      invariant Numbered(man.Value()) && man.Value() == Prune(st, id)
    {
      if id in man.mapInfo && !man.mapInfo[id].inTried && man.mapInfo[id].refCount == 0 {
        DeleteNumbered(man.Value(), id);
        man.Delete(id);
      }
    }
  }

  method Reset(man: AddrMan)
    requires man.Shaped()
    modifies man, man.vvNew, man.vvTried
    ensures man.Value() == Clear(man.env, old(man.nKey))
  {
    hide TableOf;
    ClearTable(man.vvTried);
    ClearTable(man.vvNew);
    man.nIdCount, man.nTried, man.nNew, man.nLastGood := 0, 0, 0, 1;
    man.mapInfo, man.mapAddr, man.vRandom := map[], map[], [];
  }

  /** Replaces the manager's contents by those of a file; `ok` is false where the source throws. */
  method Unserialize(man: AddrMan, file: File) returns (ok: bool)
    requires man.Shaped() && Complete(file)
    modifies man, man.vvNew, man.vvTried
    ensures ok <==> Load(man.env, file).Accepted?
    ensures ok ==> man.Value() == Load(man.env, file).state
  {
    hide TableOf, Complete;
    Reset(man);
    if file.keySize != 32 {
      return false;
    }
    man.nKey, man.nNew, man.nTried := file.key, file.nNew, file.nTried;
    if man.nNew > NEW_BUCKET_COUNT * BUCKET_SIZE {
      return false;
    }
    if man.nTried > TRIED_BUCKET_COUNT * BUCKET_SIZE {
      return false;
    }
    ReadAll(man, file);
    return true;
  }

  method ReadAll(man: AddrMan, file: File)
    requires man.Shaped() && Complete(file) && man.nIdCount == 0 && Numbered(man.Value())
    modifies man, man.vvNew, man.vvTried
    ensures
      var usable := Usable(file);
      var st2 := LoadTried(LoadNew(old(man.Value()), file.newInfos, usable), file.triedInfos);
      var st3 := LoadBuckets(st2, file.buckets, usable);
      Numbered(st3) && man.Value() == Prune(st3, st3.idCount)
  {
    hide TableOf, Numbered, LoadNew, LoadTried, LoadBuckets, Prune;
    var usable := Usable(file);
    ghost var st0 := man.Value();
    ReadNew(man, file.newInfos, usable);
    LoadNewNumbered(st0, file.newInfos, usable);
    ghost var st1 := man.Value();
    ReadTried(man, file.triedInfos);
    LoadTriedNumbered(st1, file.triedInfos);
    ghost var st2 := man.Value();
    ReadBuckets(man, file.buckets, usable);
    LoadBucketsNumbered(st2, file.buckets, usable);
    PruneAll(man);
  }

  /** Saving one manager into another of the same environment reproduces it. */
  method SaveAndLoad(man: AddrMan, copy: AddrMan)
    requires man.Valid() && copy.Shaped() && copy.env == man.env
    requires man != copy && {man.vvNew, man.vvTried} !! {copy.vvNew, copy.vvTried}
    modifies copy, copy.vvNew, copy.vvTried
    ensures copy.Valid() && Equivalent(man.Value(), copy.Value())
  {
    hide Inv, TableOf, Equivalent, Save, Load, Complete;
    SaveLoadRoundTrip(man.Value());
    var file := Serialize(man);
    var ok := Unserialize(copy, file);
  }
}
