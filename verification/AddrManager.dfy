/**
 The address manager object: maps, a random-order vector and two fixed bucket arrays, updated
 in place. Every method is proved against the operation of the same name on state values.
 */
module AddrManager {
  import opened AddrTables
  import Ops = AddrOps
  import opened Powers

  ghost function TableOf(a: array2<int>): Table
    reads a
  {
    map b: nat, p: nat | b < a.Length0 && p < a.Length1 && a[b, p] != -1 :: Slot(b, p) := a[b, p]
  }

  method Fill(a: array2<int>, b: nat, p: nat, id: int)
    requires b < a.Length0 && p < a.Length1 && id != -1
    modifies a
    ensures TableOf(a) == old(TableOf(a))[Slot(b, p) := id]
  {
    a[b, p] := id;
    assert TableOf(a).Keys == old(TableOf(a)).Keys + {Slot(b, p)};
  }

  method Empty(a: array2<int>, b: nat, p: nat)
    requires b < a.Length0 && p < a.Length1
    modifies a
    ensures TableOf(a) == old(TableOf(a)) - {Slot(b, p)}
  {
    a[b, p] := -1;
    assert TableOf(a).Keys == old(TableOf(a)).Keys - {Slot(b, p)};
  }

  class AddrMan {
    const env: Env
    var nKey: nat
    var nIdCount: nat
    var mapInfo: map<int, Info>
    var mapAddr: map<NetAddr, int>
    var vRandom: seq<int>
    var nTried: int
    const vvTried: array2<int>
    var nNew: int
    const vvNew: array2<int>
    var nLastGood: int

    /** The bucket arrays are distinct and have their fixed sizes. */
    ghost predicate Shaped()
    {
      && vvTried != vvNew
      && vvTried.Length0 == TRIED_BUCKET_COUNT && vvTried.Length1 == BUCKET_SIZE
      && vvNew.Length0 == NEW_BUCKET_COUNT && vvNew.Length1 == BUCKET_SIZE
    }

    ghost function Value(): State
      reads this, vvTried, vvNew
    {
      State(env, nKey, nIdCount, mapInfo, mapAddr, vRandom, nTried, TableOf(vvTried),
            nNew, TableOf(vvNew), nLastGood)
    }

    ghost predicate Valid()
      reads this, vvTried, vvNew
    {
      Shaped() && Inv(Value())
    }

    /** Clear, with the fresh random key it draws. */
    constructor (env: Env, key: nat)
      requires key != 0
      ensures Valid() && Value() == Clear(env, key) && fresh(vvTried) && fresh(vvNew)
    {
      this.env, nKey, nIdCount, nTried, nNew, nLastGood := env, key, 0, 0, 0, 1;
      mapInfo, mapAddr, vRandom := map[], map[], [];
      vvTried := new int[TRIED_BUCKET_COUNT, BUCKET_SIZE]((b, p) => -1);
      vvNew := new int[NEW_BUCKET_COUNT, BUCKET_SIZE]((b, p) => -1);
      new;
      ClearInv(env, key);
      assert TableOf(vvTried) == map[] && TableOf(vvNew) == map[];
    }

    method Find(net: NetAddr) returns (found: bool, id: int)
      ensures found == Ops.Known(Value(), net)
      ensures found ==> id == mapAddr[net]
    {
      found, id := false, -1;
      if net in mapAddr {
        id := mapAddr[net];
        found := id in mapInfo;
      }
    }

    method Create(addr: Address, source: NetAddr) returns (nId: int)
      modifies this
      ensures Value() == AddrTables.Create(old(Value()), addr, source) && nId == old(nIdCount)
    {
      nId := nIdCount;
      nIdCount := nIdCount + 1;
      mapInfo := mapInfo[nId := Info(addr.service, addr.services, addr.time, source,
                                     0, 0, 0, 0, 0, false, -1)];
      mapAddr := mapAddr[addr.service.net := nId];
      mapInfo := mapInfo[nId := mapInfo[nId].(randomPos := |vRandom|)];
      vRandom := vRandom + [nId];
    }

    method SwapRandom(i: nat, j: nat)
      requires i < |vRandom| && j < |vRandom| && vRandom[i] in mapInfo && vRandom[j] in mapInfo
      modifies this
      ensures Value() == AddrTables.SwapRandom(old(Value()), i, j)
    {
      if i == j {
        return;
      }
      var nId1, nId2 := vRandom[i], vRandom[j];
      mapInfo := mapInfo[nId1 := mapInfo[nId1].(randomPos := j)];
      mapInfo := mapInfo[nId2 := mapInfo[nId2].(randomPos := i)];
      vRandom := vRandom[i := nId2];
      vRandom := vRandom[j := nId1];
    }

    method Delete(nId: int)
      requires RandomOk(mapInfo, vRandom)
      requires nId in mapInfo && !mapInfo[nId].inTried && mapInfo[nId].refCount == 0
      modifies this
      ensures Value() == AddrTables.Delete(old(Value()), nId)
    {
      hide Swapped, TableOf;
      var i, j := mapInfo[nId].randomPos, |vRandom| - 1;
      assert PlacedAt(mapInfo, vRandom[i], i) && PlacedAt(mapInfo, vRandom[j], j);
      Ops.SwapKeeps(mapInfo, vRandom, i, j, nId);
      SwapRandom(i, j);
      vRandom := vRandom[..|vRandom| - 1];
      mapAddr := mapAddr - {mapInfo[nId].service.net};
      mapInfo := mapInfo - {nId};
      nNew := nNew - 1;
    }

    method ClearNew(nUBucket: nat, nUBucketPos: nat)
      requires Shaped() && nUBucket < NEW_BUCKET_COUNT && nUBucketPos < BUCKET_SIZE
      requires RandomOk(mapInfo, vRandom)
      requires
        var nId := vvNew[nUBucket, nUBucketPos];
        nId != -1 ==> nId in mapInfo && mapInfo[nId].refCount > 0 && !mapInfo[nId].inTried
      modifies this, vvNew
      ensures Value() == AddrTables.ClearNew(old(Value()), Slot(nUBucket, nUBucketPos))
    {
      if vvNew[nUBucket, nUBucketPos] != -1 {
        var nIdDelete := vvNew[nUBucket, nUBucketPos];
        mapInfo := mapInfo[nIdDelete := mapInfo[nIdDelete].(refCount := mapInfo[nIdDelete].refCount - 1)];
        SameRandom(old(mapInfo), mapInfo, vRandom);
        Empty(vvNew, nUBucket, nUBucketPos);
        if mapInfo[nIdDelete].refCount == 0 {
          Delete(nIdDelete);
        }
      }
    }

    /** The clean-up loop: the entry leaves every new bucket. */
    method LeaveNewBuckets(nId: int)
      requires Shaped() && nId in mapInfo && nId != -1
      modifies this, vvNew
      ensures Value() == Detach(old(Value()), nId)
    {
      hide NewSlot, TableOf, HeldBelow, DetachBelow;
      ghost var before := Value();
      DetachNone(before, nId);
      for bucket := 0 to NEW_BUCKET_COUNT
        invariant nKey == before.key
        invariant nId in mapInfo && mapInfo[nId].service == before.infos[nId].service
        invariant Value() == DetachBelow(before, nId, bucket)
      {
        DetachNext(before, nId, bucket);
        ghost var st1 := Value();
        var pos := Position(env, nKey, true, bucket, mapInfo[nId].service);
        ghost var s := NewSlot(env, nKey, before.infos[nId].service, bucket);
        NewSlotIs(env, nKey, mapInfo[nId].service, bucket);
        assert s == Slot(bucket, pos);
        TableAt(vvNew, bucket, pos);
        if vvNew[bucket, pos] == nId {
          Empty(vvNew, bucket, pos);
          mapInfo := mapInfo[nId := mapInfo[nId].(refCount := mapInfo[nId].refCount - 1)];
          assert Value() == st1.(newTab := st1.newTab - {s},
                                 infos := SetRef(st1, nId, st1.infos[nId].refCount - 1));
        }
      }
    }

    /** Sends the holder of a tried slot back to the new table. */
    method EvictTried(nKBucket: nat, nKBucketPos: nat, ghost homeless: set<int>, ghost uncounted: int)
      requires Shaped() && Loose(Value(), homeless, uncounted)
      requires nKBucket < TRIED_BUCKET_COUNT && nKBucketPos < BUCKET_SIZE
      requires vvTried[nKBucket, nKBucketPos] != -1
      modifies this, vvNew, vvTried
      ensures
        var s := Slot(nKBucket, nKBucketPos);
        s in old(TableOf(vvTried)) && Value() == Ops.Evict(old(Value()), s, homeless, uncounted)
    {
      hide RandomOk, AddrOk, NewOk, RefOk, TriedOk, EntriesOk, CountOk, TableOf, AddrTables.ClearNew,
           NewSlot;
      ghost var s, before := Slot(nKBucket, nKBucketPos), Value();
      TableAt(vvTried, nKBucket, nKBucketPos);
      LeaveTriedLoose(before, s, homeless, uncounted);
      var nIdEvict := vvTried[nKBucket, nKBucketPos];
      mapInfo := mapInfo[nIdEvict := mapInfo[nIdEvict].(inTried := false)];
      Empty(vvTried, nKBucket, nKBucketPos);
      nTried := nTried - 1;
      ghost var st1 := Value();
      assert st1 == LeaveTried(before, s);
      var infoOld := mapInfo[nIdEvict];
      var nUBucket := NewBucket(env, nKey, infoOld.service, infoOld.source);
      var nUBucketPos := Position(env, nKey, true, nUBucket, infoOld.service);
      NewSlotIs(env, nKey, infoOld.service, nUBucket);
      ghost var u := Slot(nUBucket, nUBucketPos);
      assert u == Ops.HomeSlot(st1, nIdEvict);
      Ops.HomelessOwnsNothing(st1, nIdEvict, homeless + {nIdEvict}, uncounted + 1, u);
      ClearNewLoose(st1, u, homeless + {nIdEvict}, uncounted + 1);
      Ops.ClearNewKeeps(st1, u, homeless + {nIdEvict}, uncounted + 1, nIdEvict);
      TableAt(vvNew, nUBucket, nUBucketPos);
      ClearNew(nUBucket, nUBucketPos);
      mapInfo := mapInfo[nIdEvict := mapInfo[nIdEvict].(refCount := 1)];
      ProperId(before, nIdEvict, homeless, uncounted);
      Fill(vvNew, nUBucket, nUBucketPos, nIdEvict);
      nNew := nNew + 1;
    }

    method MakeTried(nId: int)
      requires Valid() && nId in mapInfo && !mapInfo[nId].inTried && mapInfo[nId].lastSuccess > 0
      modifies this, vvNew, vvTried
      ensures Value() == Ops.MakeTried(old(Value()), nId)
      ensures Valid()
    {
      hide RandomOk, AddrOk, NewOk, RefOk, TriedOk, EntriesOk, CountOk, TableOf, Ops.Evict, Detach;
      ghost var before := Value();
      Ops.MakeTriedInv(before, nId);
      ProperId(before, nId, {}, 0);
      DetachLoose(before, nId, {}, 0);
      Ops.DetachFrame(before, nId);
      Ops.Recount(Detach(before, nId), {} + {nId}, 0, 1);
      LeaveNewBuckets(nId);
      nNew := nNew - 1;
      var info := mapInfo[nId];
      var nKBucket := TriedBucket(env, nKey, info.service);
      var nKBucketPos := Position(env, nKey, false, nKBucket, info.service);
      ghost var s := TriedSlot(env, nKey, info.service);
      assert s == Slot(nKBucket, nKBucketPos);
      TableAt(vvTried, nKBucket, nKBucketPos);
      if vvTried[nKBucket, nKBucketPos] != -1 {
        Ops.EvictKeepsHomeless(Value(), s, {} + {nId}, 1, nId);
        EvictTried(nKBucket, nKBucketPos, {} + {nId}, 1);
      }
      Fill(vvTried, nKBucket, nKBucketPos, nId);
      nTried := nTried + 1;
      mapInfo := mapInfo[nId := mapInfo[nId].(inTried := true)];
    }

    method FindExactly(service: Service) returns (found: bool, id: int)
      ensures found == Ops.KnownExactly(Value(), service)
      ensures found ==> id in mapInfo && id == mapAddr[service.net]
    {
      found, id := Find(service.net);
      if found {
        found := mapInfo[id].service == service;
      }
    }

    /** `rnd` is the random bucket the search for a current bucket starts from. */
    method Good_(addr: Service, nTime: int, rnd: nat)
      requires Valid() && nTime > 0
      modifies this, vvNew, vvTried
      ensures Valid() && Value() == Ops.Good(old(Value()), addr, nTime)
    {
      hide RandomOk, AddrOk, NewOk, RefOk, TriedOk, EntriesOk, CountOk, TableOf, Ops.MakeTried;
      ghost var before := Value();
      Ops.GoodInv(before, addr, nTime);
      nLastGood := nTime;
      var found, nId := FindExactly(addr);
      if !found {
        return;
      }
      Ops.GoodReady(before, nId, nTime);
      mapInfo := mapInfo[nId := mapInfo[nId].(lastSuccess := nTime, lastTry := nTime, attempts := 0)];
      assert Value() == Ops.SetInfo(before.(lastGood := nTime), nId, Ops.Succeeded(before.infos[nId], nTime));
      if mapInfo[nId].inTried {
        return;
      }
      var nUBucket := FindBucket(nId, rnd);
      assert nUBucket != -1;  // the source bails out otherwise
      MakeTried(nId);
    }

    /** Searches all new buckets for one that holds the entry; there always is one. */
    method FindBucket(nId: int, rnd: nat) returns (nUBucket: int)
      requires Valid() && nId in mapInfo && !mapInfo[nId].inTried
      ensures 0 <= nUBucket < NEW_BUCKET_COUNT
      ensures vvNew[nUBucket, Position(env, nKey, true, nUBucket, mapInfo[nId].service)] == nId
    {
      hide RandomOk, AddrOk, NewOk, RefOk, TriedOk, EntriesOk, CountOk;
      ghost var b := Ops.GoodFindsBucket(Value(), nId);
      var nRnd := rnd % NEW_BUCKET_COUNT;
      ghost var at := (b + NEW_BUCKET_COUNT - nRnd) % NEW_BUCKET_COUNT;
      assert (at + nRnd) % NEW_BUCKET_COUNT == b;
      nUBucket := -1;
      var n := 0;
      while nUBucket == -1
        invariant 0 <= n <= at + 1 && (nUBucket == -1 ==> n <= at)
        invariant nUBucket != -1 ==>
          && 0 <= nUBucket < NEW_BUCKET_COUNT
          && vvNew[nUBucket, Position(env, nKey, true, nUBucket, mapInfo[nId].service)] == nId
        decreases at + 1 - n
      {
        var nB := (n + nRnd) % NEW_BUCKET_COUNT;
        var nBpos := Position(env, nKey, true, nB, mapInfo[nId].service);
        if vvNew[nB, nBpos] == nId {
          nUBucket := nB;
        }
        n := n + 1;
      }
    }

    method Attempt_(addr: Service, fCountFailure: bool, nTime: int)
      requires Valid() && nTime >= 0
      modifies this
      ensures Valid() && Value() == Ops.Attempt(old(Value()), addr, fCountFailure, nTime)
    {
      hide RandomOk, AddrOk, NewOk, RefOk, TriedOk, EntriesOk, CountOk, TableOf;
      Ops.StatisticsInv(Value(), addr, fCountFailure, nTime, {});
      var found, nId := FindExactly(addr);
      if !found {
        return;
      }
      var info := mapInfo[nId];
      info := info.(lastTry := nTime);
      if fCountFailure && info.lastCountAttempt < nLastGood {
        info := info.(lastCountAttempt := nTime, attempts := info.attempts + 1);
      }
      mapInfo := mapInfo[nId := info];
    }

    method Connected_(addr: Service, nTime: int)
      requires Valid() && nTime >= 0
      modifies this
      ensures Valid() && Value() == Ops.Connected(old(Value()), addr, nTime)
    {
      hide RandomOk, AddrOk, NewOk, RefOk, TriedOk, EntriesOk, CountOk, TableOf;
      Ops.StatisticsInv(Value(), addr, false, nTime, {});
      var found, nId := FindExactly(addr);
      if !found {
        return;
      }
      var nUpdateInterval := 20 * 60;
      if nTime - mapInfo[nId].time > nUpdateInterval {
        mapInfo := mapInfo[nId := mapInfo[nId].(time := nTime)];
      }
    }

    method SetServices_(addr: Service, nServices: set<nat>)
      requires Valid()
      modifies this
      ensures Valid() && Value() == Ops.SetServices(old(Value()), addr, nServices)
    {
      hide RandomOk, AddrOk, NewOk, RefOk, TriedOk, EntriesOk, CountOk, TableOf;
      Ops.StatisticsInv(Value(), addr, false, 0, nServices);
      var found, nId := FindExactly(addr);
      if !found {
        return;
      }
      mapInfo := mapInfo[nId := mapInfo[nId].(services := nServices)];
    }

    /** The end of Add_. */
    method PlaceNew(nId: int, source: NetAddr, now: int, ghost homeless: set<int>)
      requires Shaped() && Loose(Value(), homeless, 0) && nId in mapInfo && homeless <= {nId}
      requires !mapInfo[nId].inTried && mapInfo[nId].refCount < NEW_BUCKETS_PER_ADDRESS
      modifies this, vvNew
      ensures Valid() && Value() == Ops.Place(old(Value()), nId, source, now, homeless)
    {
      hide RandomOk, AddrOk, NewOk, RefOk, TriedOk, EntriesOk, CountOk, TableOf, AddrTables.ClearNew,
           AddrTables.Delete, NewSlot, Ops.IsTerrible;
      ghost var before := Value();
      Ops.PlaceInv(before, nId, source, now, homeless);
      ProperId(before, nId, homeless, 0);
      var nUBucket := NewBucket(env, nKey, mapInfo[nId].service, source);
      var nUBucketPos := Position(env, nKey, true, nUBucket, mapInfo[nId].service);
      NewSlotIs(env, nKey, mapInfo[nId].service, nUBucket);
      ghost var s := Slot(nUBucket, nUBucketPos);
      assert s == Ops.SourceSlot(before, nId, source);
      TableAt(vvNew, nUBucket, nUBucketPos);
      ClearNewLoose(before, s, homeless, 0);
      if vvNew[nUBucket, nUBucketPos] != nId {
        var fInsert := vvNew[nUBucket, nUBucketPos] == -1;
        if !fInsert {
          var infoExisting := mapInfo[vvNew[nUBucket, nUBucketPos]];
          if Ops.IsTerrible(infoExisting, now) || (infoExisting.refCount > 1 && mapInfo[nId].refCount == 0) {
            fInsert := true;
          }
        }
        assert fInsert == Ops.Insertable(before, nId, s, now);
        if fInsert {
          Ops.ClearNewKeeps(before, s, homeless, 0, nId);
          ClearNew(nUBucket, nUBucketPos);
          mapInfo := mapInfo[nId := mapInfo[nId].(refCount := mapInfo[nId].refCount + 1)];
          Fill(vvNew, nUBucket, nUBucketPos, nId);
        } else if mapInfo[nId].refCount == 0 {
          Delete(nId);
        }
      }
    }

    /** `rnd` is the random number of the stochastic test, `now` the adjusted time. */
    method Add_(addr: Address, source: NetAddr, penalty: int, now: int, rnd: nat) returns (fNew: bool)
      requires Valid()
      modifies this, vvNew
      ensures Valid()
      ensures
        var lucky := Lucky(old(Value()), addr.service.net, rnd);
        (Value(), fNew) == Ops.Add(old(Value()), addr, source, penalty, now, lucky)
    {
      hide RandomOk, AddrOk, NewOk, RefOk, TriedOk, EntriesOk, CountOk, TableOf, Ops.Place, Odds;
      ghost var before := Value();
      ghost var lucky := Lucky(before, addr.service.net, rnd);
      Ops.AddInv(before, addr, source, penalty, now, lucky);
      Ops.KnownId(before, addr.service.net);
      if !env.routable(addr.service.net) {
        return false;
      }
      fNew := false;
      var found, nId := Find(addr.service.net);
      var nTimePenalty := penalty;
      if addr.service.net == source {
        nTimePenalty := 0;
      }
      if found {
        var done := RefreshKnown(addr, nId, nTimePenalty, now, rnd);
        if done {
          return false;
        }
        Ops.HomelessByCount(Value(), nId, {}, 0);
        PlaceNew(nId, source, now, {});
      } else {
        Ops.CreatedLoose(before, addr, source, nTimePenalty);
        nId := Create(addr, source);
        mapInfo := mapInfo[nId := mapInfo[nId].(time := Ops.Max(0, mapInfo[nId].time - nTimePenalty))];
        nNew := nNew + 1;
        fNew := true;
        assert Value() == Ops.Created(before, addr, source, nTimePenalty);
        PlaceNew(nId, source, now, {} + {nId});
      }
    }

    /** Updates a known entry; the result says that nothing more is to be done. */
    method RefreshKnown(addr: Address, nId: int, nTimePenalty: int, now: int, rnd: nat) returns (done: bool)
      requires Valid() && nId in mapInfo && addr.service.net in mapAddr && mapAddr[addr.service.net] == nId
      modifies this
      ensures Valid() && nId in mapInfo
      ensures
        var info := Ops.Refreshed(old(mapInfo)[nId], addr, nTimePenalty, now);
        && Value() == Ops.SetInfo(old(Value()), nId, info)
        && done == Ops.Satisfied(info, addr, Lucky(old(Value()), addr.service.net, rnd))
    {
      hide RandomOk, AddrOk, NewOk, RefOk, TriedOk, EntriesOk, CountOk, TableOf, Odds;
      Ops.RefreshedInv(Value(), nId, addr, nTimePenalty, now);
      Ops.KnownId(Value(), addr.service.net);
      var pinfo := mapInfo[nId];
      var fCurrentlyOnline := now - addr.time < 24 * 60 * 60;
      var nUpdateInterval := if fCurrentlyOnline then 60 * 60 else 24 * 60 * 60;
      if addr.time != 0 && (pinfo.time == 0 || pinfo.time < addr.time - nUpdateInterval - nTimePenalty) {
        pinfo := pinfo.(time := Ops.Max(0, addr.time - nTimePenalty));
      }
      pinfo := pinfo.(services := pinfo.services + addr.services);
      mapInfo := mapInfo[nId := pinfo];
      if addr.time == 0 || (pinfo.time != 0 && addr.time <= pinfo.time) {
        return true;
      }
      if pinfo.inTried {
        return true;
      }
      if pinfo.refCount == NEW_BUCKETS_PER_ADDRESS {
        return true;
      }
      var nFactor := Factor(pinfo.refCount);
      if nFactor > 1 && rnd % nFactor != 0 {
        return true;
      }
      return false;
    }
  }

  /** Two to the power of a reference count. */
  function Odds(refCount: int): (r: nat)
    ensures r >= 1 && (r > 1 <==> refCount > 0)
  {
    if refCount <= 0 then 1 else Pow2(refCount)
  }

  /** The stochastic test: a count of N makes another reference 2^N times harder to get. */
  ghost predicate Lucky(st: State, net: NetAddr, rnd: nat) {
    Ops.Known(st, net) ==> rnd % Odds(st.infos[st.addrs[net]].refCount) == 0
  }

  method Factor(refCount: int) returns (nFactor: nat)
    ensures nFactor == Odds(refCount)
  {
    nFactor := 1;
    var n := 0;
    while n < refCount
      invariant 0 <= n && (n <= refCount || n == 0)
      invariant nFactor == Pow2(n)
    {
      nFactor := nFactor * 2;
      n := n + 1;
    }
  }

  lemma ProperId(st: State, id: int, homeless: set<int>, uncounted: int)
    requires Loose(st, homeless, uncounted) && id in st.infos
    ensures id != -1
  {
  }

  lemma TableAt(a: array2<int>, b: nat, p: nat)
    requires b < a.Length0 && p < a.Length1
    ensures Slot(b, p) in TableOf(a) <==> a[b, p] != -1
    ensures a[b, p] != -1 ==> TableOf(a)[Slot(b, p)] == a[b, p]
  {
  }

  lemma NewSlotIs(env: Env, key: nat, service: Service, bucket: nat)
    ensures NewSlot(env, key, service, bucket) == Slot(bucket, Position(env, key, true, bucket, service))
  {
  }

  lemma DetachNone(st: State, id: int)
    requires id in st.infos
    ensures DetachBelow(st, id, 0) == st
  {
    assert HeldBelow(st, id, 0) == {};
    assert st.infos[id := st.infos[id]] == st.infos;
    assert st.newTab - {} == st.newTab;
  }

  /** One more bucket of the clean-up loop. */
  lemma DetachNext(st: State, id: int, b: nat)
    requires id in st.infos
    ensures
      var st1 := DetachBelow(st, id, b);
      var s := NewSlot(st.env, st.key, st.infos[id].service, b);
      && (s in st1.newTab && st1.newTab[s] == id <==> s in st.newTab && st.newTab[s] == id)
      && DetachBelow(st, id, b + 1)
         == if s in st.newTab && st.newTab[s] == id
            then st1.(newTab := st1.newTab - {s}, infos := SetRef(st1, id, st1.infos[id].refCount - 1))
            else st1
  {
    hide NewSlot, HeldBelow;
    HeldNext(st, id, b);
    var s := NewSlot(st.env, st.key, st.infos[id].service, b);
    var held := HeldBelow(st, id, b);
    if s in st.newTab && st.newTab[s] == id {
      WithoutTwice(st.newTab, held, s);
      SetRefTwice(st, id, st.infos[id].refCount - |held|, st.infos[id].refCount - |held| - 1);
    }
  }

  lemma WithoutTwice(tab: Table, held: set<Slot>, s: Slot)
    requires s !in held
    ensures tab - (held + {s}) == tab - held - {s} && |held + {s}| == |held| + 1
  {
  }

  lemma SetRefTwice(st: State, id: int, r: int, r': int)
    requires id in st.infos
    ensures SetRef(st.(infos := SetRef(st, id, r)), id, r') == SetRef(st, id, r')
  {
  }

  lemma HeldNext(st: State, id: int, b: nat)
    requires id in st.infos
    ensures
      var s := NewSlot(st.env, st.key, st.infos[id].service, b);
      && s !in HeldBelow(st, id, b)
      && HeldBelow(st, id, b + 1)
         == if s in st.newTab && st.newTab[s] == id then HeldBelow(st, id, b) + {s}
            else HeldBelow(st, id, b)
  {
    var s := NewSlot(st.env, st.key, st.infos[id].service, b);
    assert s.bucket == b;
    hide NewSlot;
  }
}
