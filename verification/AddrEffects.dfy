/**
 What the manager's calls do to the entry they are about, and that nobody else notices.
 */
module AddrEffects {
  import opened AddrTables
  import opened AddrOps
  import opened AddrManager
  import opened Powers

  // ---------------------------------------------------------------- terrible entries

  /** An entry is worth keeping if it was just tried, or is neither future, stale nor failing. */
  lemma DecentIff(info: Info, now: int)
    ensures !IsTerrible(info, now) <==>
      || (info.lastTry != 0 && now - info.lastTry <= 60)
      || (&& 0 != info.time <= now + 600 && now - info.time <= 2592000
          && (info.attempts < 3 || (info.lastSuccess != 0 && (info.attempts < 10 || now - info.lastSuccess <= 604800))))
  {
  }

  // ---------------------------------------------------------------- statistics

  /** Only the named fields of entry `id` may differ, and nothing else in the state. */
  ghost predicate OnlyEntry(st: State, st': State, id: int) {
    id in st.infos && id in st'.infos && st' == st.(infos := st.infos[id := st'.infos[id]])
  }

  lemma AttemptEffect(st: State, service: Service, countFailure: bool, time: int)
    requires Inv(st)
    ensures
      var st', net := Attempt(st, service, countFailure, time), service.net;
      if net in st.addrs && net in st'.addrs && st.addrs[net] in st.infos
         && st.infos[st.addrs[net]].service.port == service.port then
        var id := st.addrs[net];
        && OnlyEntry(st, st', id)
        && var e, e' := st.infos[id], st'.infos[id];
           var counted := countFailure && e.lastCountAttempt < st.lastGood;
           && e' == e.(lastTry := time, lastCountAttempt := e'.lastCountAttempt, attempts := e'.attempts)
           && e'.attempts - e.attempts == (if counted then 1 else 0)
           && e'.lastCountAttempt == if counted then time else e.lastCountAttempt
      else st' == st
  {
    hide RandomOk, NewOk, RefOk, TriedOk, EntriesOk, CountOk;
    KnownId(st, service.net);
  }

  /** Failures are counted once after every success of any address, however often they happen. */
  lemma FailureCountsOnce(st: State, service: Service, time: int, again: int)
    requires Inv(st) && st.lastGood <= time && KnownExactly(st, service)
    ensures
      var once := Attempt(st, service, true, time);
      var twice := Attempt(once, service, true, again);
      var id := st.addrs[service.net];
      && id in once.infos && id in twice.infos
      && twice.infos[id].attempts == once.infos[id].attempts <= st.infos[id].attempts + 1
  {
    hide Inv;
  }

  /** The time of last sight moves by more than twenty minutes or not at all. */
  lemma ConnectedEffect(st: State, service: Service, time: int)
    requires Inv(st)
    ensures
      var st', net := Connected(st, service, time), service.net;
      if net in st.addrs && st.addrs[net] in st.infos && st.infos[st.addrs[net]].service.port == service.port
         && time > st.infos[st.addrs[net]].time + 1200 then
        var id := st.addrs[net];
        OnlyEntry(st, st', id) && st'.infos[id] == st.infos[id].(time := time)
      else st' == st
  {
    hide RandomOk, NewOk, RefOk, TriedOk, EntriesOk, CountOk;
    KnownId(st, service.net);
  }

  lemma SetServicesEffect(st: State, service: Service, services: set<nat>)
    requires Inv(st)
    ensures
      var st', net := SetServices(st, service, services), service.net;
      if net in st.addrs && st.addrs[net] in st.infos && st.infos[st.addrs[net]].service.port == service.port then
        var id := st.addrs[net];
        OnlyEntry(st, st', id) && st'.infos[id] == st.infos[id].(services := services)
      else st' == st
  {
    hide RandomOk, NewOk, RefOk, TriedOk, EntriesOk, CountOk;
    KnownId(st, service.net);
  }

  // ---------------------------------------------------------------- Good

  lemma MakeTriedSelf(st: State, id: int)
    requires Inv(st) && id in st.infos && !st.infos[id].inTried && st.infos[id].lastSuccess > 0
    ensures
      var st' := MakeTried(st, id);
      && id in st'.infos && st'.lastGood == st.lastGood
      && st'.infos[id] == st.infos[id].(refCount := 0, inTried := true, randomPos := st'.infos[id].randomPos)
  {
    hide RandomOk, AddrOk, NewOk, RefOk, TriedOk, EntriesOk, CountOk, TriedSlot, Evict, DetachBelow;
    DetachLoose(st, id, {}, 0);
    Recount(Detach(st, id), {} + {id}, 0, 1);
    DetachFrame(st, id);
    DetachGood(st, id);
    var st1 := Detach(st, id).(nNew := st.nNew - 1);
    var s := TriedSlot(st.env, st.key, st.infos[id].service);
    if s in st1.triedTab {
      EvictKeepsHomeless(st1, s, {} + {id}, 1, id);
      EvictGood(st1, s, {} + {id}, 1);
    }
  }

  lemma DetachGood(st: State, id: int)
    requires id in st.infos
    ensures Detach(st, id).lastGood == st.lastGood
  {
  }

  lemma EvictGood(st: State, s: Slot, homeless: set<int>, uncounted: int)
    requires Loose(st, homeless, uncounted) && s in st.triedTab
    ensures Evict(st, s, homeless, uncounted).lastGood == st.lastGood
  {
    hide RandomOk, AddrOk, NewOk, RefOk, TriedOk, EntriesOk, CountOk, HomeSlot;
    LeaveTriedLoose(st, s, homeless, uncounted);
    var id := st.triedTab[s];
    var st1 := LeaveTried(st, s);
    var u := HomeSlot(st1, id);
    HomelessOwnsNothing(st1, id, homeless + {id}, uncounted + 1, u);
    ClearNewLoose(st1, u, homeless + {id}, uncounted + 1);
    ClearNewKeeps(st1, u, homeless + {id}, uncounted + 1, id);
    ClearNewGood(st1, u);
  }

  lemma ClearNewGood(st: State, s: Slot)
    requires RandomOk(st.infos, st.random)
    requires s in st.newTab ==>
      var id := st.newTab[s]; id in st.infos && st.infos[id].refCount > 0 && !st.infos[id].inTried
    ensures ClearNew(st, s).lastGood == st.lastGood
  {
  }

  /** A success: the entry of exactly this address and port is fresh, without failures, and tried. */
  lemma GoodEffect(st: State, service: Service, time: int)
    requires Inv(st) && time > 0
    ensures
      var st', net := Good(st, service, time), service.net;
      && st'.lastGood == time
      && if net in st.addrs && st.addrs[net] in st.infos
            && st.infos[st.addrs[net]].service.port == service.port then
           var id := st.addrs[net];
           && id in st'.infos
           && st'.infos[id] == st.infos[id].(lastSuccess := time, lastTry := time, attempts := 0, inTried := true,
                                             refCount := 0, randomPos := st'.infos[id].randomPos)
           && (st.infos[id].inTried ==> OnlyEntry(st.(lastGood := time), st', id))
         else st' == st.(lastGood := time)
  {
    hide RandomOk, NewOk, RefOk, TriedOk, CountOk, MakeTried;
    KnownId(st, service.net);
    if KnownExactly(st, service) {
      var id := st.addrs[service.net];
      assert EntryOk(st.infos[id], false);
      GoodReady(st, id, time);
      if !st.infos[id].inTried {
        MakeTriedSelf(SetInfo(st.(lastGood := time), id, Succeeded(st.infos[id], time)), id);
      }
    }
  }

  /** An entry that a success pushes out of the tried table is back at the new slot of its own source. */
  lemma PushedOut(st: State, id: int)
    requires Inv(st) && id in st.infos && !st.infos[id].inTried && st.infos[id].lastSuccess > 0
    requires TriedSlot(st.env, st.key, st.infos[id].service) in st.triedTab
    ensures
      var st', e := MakeTried(st, id), st.triedTab[TriedSlot(st.env, st.key, st.infos[id].service)];
      && e in st.infos && e in st'.infos
      && var o := st.infos[e];
         var u := NewSlot(st.env, st.key, o.service, NewBucket(st.env, st.key, o.service, o.source));
         u in st'.newTab && st'.newTab[u] == e
  {
    hide RandomOk, AddrOk, NewOk, RefOk, TriedOk, EntriesOk, CountOk, Evict, TriedSlot, NewSlot, NewBucket,
         DetachBelow;
    DetachLoose(st, id, {}, 0);
    Recount(Detach(st, id), {} + {id}, 0, 1);
    DetachFrame(st, id);
    var st1 := Detach(st, id).(nNew := st.nNew - 1);
    var s := TriedSlot(st.env, st.key, st.infos[id].service);
    LeaveTriedLoose(st, s, {}, 0);
    EvictKeepsHomeless(st1, s, {} + {id}, 1, id);
    DetachKeeps(st, id, st.triedTab[s]);
    EvictedIsBack(st1, s, {} + {id}, 1);
  }

  // ---------------------------------------------------------------- Add for a known address

  /** The announced time, less the penalty unless the address announces itself. */
  function Announced(addr: Address, source: NetAddr, penalty: int): int {
    if addr.service.net == source then addr.time else addr.time - penalty
  }

  /** The announcement is late enough to replace the time: an hour for nodes seen today, else a day. */
  predicate Overtakes(time: int, addr: Address, source: NetAddr, penalty: int, now: int) {
    addr.time != 0 &&
    (time == 0 || Announced(addr, source, penalty) > time + if addr.time + 86400 > now then 3600 else 86400)
  }

  /** The slot of source `source` for entry `id`. */
  function SlotFor(st: State, id: int, source: NetAddr): Slot
    requires id in st.infos
  {
    var service := st.infos[id].service;
    var bucket := NewBucket(st.env, st.key, service, source);
    Slot(bucket, Position(st.env, st.key, true, bucket, service))
  }

  /**
   A known entry earns another reference: there is news, it is in the new table below its limit,
   the random number is a multiple of two to its references, and the slot of the source is free or
   held by a terrible entry.
   */
  ghost predicate Earns(st: State, id: int, addr: Address, source: NetAddr, time: int, now: int, rnd: nat)
    requires id in st.infos
  {
    var e, s := st.infos[id], SlotFor(st, id, source);
    && addr.time != 0 && (time == 0 || addr.time > time)
    && !e.inTried && 0 <= e.refCount < 8 && rnd % Pow2(e.refCount) == 0
    && (s in st.newTab ==> st.newTab[s] != id && st.newTab[s] in st.infos && IsTerrible(st.infos[st.newTab[s]], now))
  }

  lemma SlotForIs(st: State, id: int, source: NetAddr)
    requires id in st.infos
    ensures SourceSlot(st, id, source) == SlotFor(st, id, source)
  {
  }

  lemma LuckyIs(st: State, net: NetAddr, rnd: nat)
    requires Inv(st) && net in st.addrs && st.addrs[net] in st.infos && !st.infos[st.addrs[net]].inTried
    ensures 1 <= st.infos[st.addrs[net]].refCount <= 8
    ensures Lucky(st, net, rnd) <==> rnd % Pow2(st.infos[st.addrs[net]].refCount) == 0
  {
    hide RandomOk, AddrOk, NewOk, RefOk, TriedOk, CountOk, EntriesOk;
    HomelessByCount(st, st.addrs[net], {}, 0);
  }

  /** The end of Add_ for an entry that has references: it takes the slot or nothing happens. */
  lemma PlaceKnown(st: State, id: int, source: NetAddr, now: int)
    requires Inv(st) && id in st.infos && !st.infos[id].inTried
    ensures
      var st', s := Place(st, id, source, now, {}), SlotFor(st, id, source);
      if s in st.newTab ==> st.newTab[s] != id && st.newTab[s] in st.infos && IsTerrible(st.infos[st.newTab[s]], now)
      then
        && id in st'.infos && st'.newTab == st.newTab[s := id] && st'.triedTab == st.triedTab
        && st'.infos[id]
           == st.infos[id].(refCount := st.infos[id].refCount + 1, randomPos := st'.infos[id].randomPos)
      else st' == st
  {
    hide RandomOk, AddrOk, NewOk, RefOk, TriedOk, EntriesOk, CountOk, ClearNew, SourceSlot, IsTerrible, SlotFor;
    SlotForIs(st, id, source);
    var s := SlotFor(st, id, source);
    HomelessByCount(st, id, {}, 0);
    if s in st.newTab {
      OwnerFacts(st, s, {}, 0);
    }
    if (s in st.newTab ==> st.newTab[s] != id) && Insertable(st, id, s, now) {
      ClearNewLoose(st, s, {}, 0);
      ClearNewKeeps(st, s, {}, 0, id);
      assert (st.newTab - {s})[s := id] == st.newTab[s := id];
    }
  }

  /**
   Announcing a known address: its services are joined, its time is the announced one or as it
   was, and it gets the slot of the source as one more reference exactly when it earns it;
   otherwise no table changes.
   */
  lemma AddKnown(st: State, addr: Address, source: NetAddr, penalty: int, now: int, rnd: nat)
    requires Inv(st) && st.env.routable(addr.service.net) && addr.service.net in st.addrs
    ensures
      var id := st.addrs[addr.service.net];
      var (st', added) := Add(st, addr, source, penalty, now, Lucky(st, addr.service.net, rnd));
      && !added && id in st.infos && id in st'.infos && st'.triedTab == st.triedTab
      && var e, e' := st.infos[id], st'.infos[id];
         var earned := Earns(st, id, addr, source, e'.time, now, rnd);
         && e'.services == e.services + addr.services
         && e'.time == (if Overtakes(e.time, addr, source, penalty, now)
                        then Max(0, Announced(addr, source, penalty)) else e.time)
         && e' == e.(time := e'.time, services := e'.services, randomPos := e'.randomPos,
                     refCount := if earned then e.refCount + 1 else e.refCount)
         && (if earned then st'.newTab == st.newTab[SlotFor(st, id, source) := id]
             else OnlyEntry(st, st', id))
  {
    hide RandomOk, NewOk, RefOk, TriedOk, EntriesOk, CountOk, AddrOk, Place, IsTerrible, SlotFor, Lucky, Pow2;
    var net := addr.service.net;
    KnownId(st, net);
    var id := st.addrs[net];
    var p := if net == source then 0 else penalty;
    RefreshedInv(st, id, addr, p, now);
    var info := Refreshed(st.infos[id], addr, p, now);
    var st1 := SetInfo(st, id, info);
    SlotForSame(st, st1, id, source);
    if !info.inTried {
      LuckyIs(st, net, rnd);
      PlaceKnown(st1, id, source, now);
    }
  }

  lemma SlotForSame(st: State, st1: State, id: int, source: NetAddr)
    requires id in st.infos && id in st1.infos && st1.infos[id].service == st.infos[id].service
    requires st1.env == st.env && st1.key == st.key
    ensures SlotFor(st1, id, source) == SlotFor(st, id, source)
  {
  }

  /** The entry that has to give way loses one reference, and is gone with the last one. */
  lemma AddDisplaces(st: State, addr: Address, source: NetAddr, penalty: int, now: int, rnd: nat)
    requires Inv(st) && st.env.routable(addr.service.net) && addr.service.net in st.addrs
    requires st.addrs[addr.service.net] in st.infos
    requires
      var id, s := st.addrs[addr.service.net], SlotFor(st, st.addrs[addr.service.net], source);
      && s in st.newTab && st.newTab[s] != id && st.newTab[s] in st.infos
      && Add(st, addr, source, penalty, now, Lucky(st, addr.service.net, rnd)).0.newTab != st.newTab
    ensures
      var st' := Add(st, addr, source, penalty, now, Lucky(st, addr.service.net, rnd)).0;
      var x := st.newTab[SlotFor(st, st.addrs[addr.service.net], source)];
      if st.infos[x].refCount == 1 then x !in st'.infos
      else x in st'.infos && st'.infos[x] == st.infos[x].(refCount := st.infos[x].refCount - 1)
  {
    hide RandomOk, NewOk, RefOk, TriedOk, EntriesOk, CountOk, AddrOk, IsTerrible, SlotFor, Lucky, Pow2, ClearNew,
         Refreshed, SourceSlot;
    var net := addr.service.net;
    KnownId(st, net);
    var id := st.addrs[net];
    var p := if net == source then 0 else penalty;
    RefreshedInv(st, id, addr, p, now);
    RefreshedService(st.infos[id], addr, p, now);
    var st1 := SetInfo(st, id, Refreshed(st.infos[id], addr, p, now));
    SlotForSame(st, st1, id, source);
    SlotForIs(st1, id, source);
    var s := SlotFor(st, id, source);
    OwnerFacts(st1, s, {}, 0);
    ClearNewOwner(st1, s);
  }

  lemma ClearNewOwner(st: State, s: Slot)
    requires Inv(st) && s in st.newTab && st.newTab[s] in st.infos
    requires st.infos[st.newTab[s]].refCount > 0 && !st.infos[st.newTab[s]].inTried
    ensures
      var x, st' := st.newTab[s], ClearNew(st, s);
      if st.infos[x].refCount == 1 then x !in st'.infos
      else x in st'.infos && st'.infos[x] == st.infos[x].(refCount := st.infos[x].refCount - 1)
  {
    hide AddrOk, NewOk, RefOk, TriedOk, EntriesOk, CountOk;
    var x, st1 := st.newTab[s], Release(st, s);
    SameRandom(st.infos, st1.infos, st.random);
  }

  /** An address that cannot be routed to is ignored. */
  lemma AddUnroutable(st: State, addr: Address, source: NetAddr, penalty: int, now: int, lucky: bool)
    requires Inv(st) && !st.env.routable(addr.service.net)
    ensures Add(st, addr, source, penalty, now, lucky) == (st, false)
  {
  }

  // ---------------------------------------------------------------- Add for an unknown address

  /**
   A first announcement is kept, with nothing but what it says and one reference at the slot of
   its source, exactly when that slot is free or its owner is terrible or has another slot;
   otherwise the tables and all other entries are as they were.
   */
  lemma AddFirst(st: State, addr: Address, source: NetAddr, penalty: int, now: int, lucky: bool)
    requires Inv(st) && st.env.routable(addr.service.net) && addr.service.net !in st.addrs
    ensures
      var id, s := st.idCount, AnnouncedSlot(st, addr, source);
      var (st', added) := Add(st, addr, source, penalty, now, lucky);
      && added && st'.triedTab == st.triedTab
      && if s in st.newTab ==> st.newTab[s] in st.infos && (|| IsTerrible(st.infos[st.newTab[s]], now)
                                                            || st.infos[st.newTab[s]].refCount > 1)
         then
           && id in st'.infos && st'.newTab == st.newTab[s := id]
           && st'.infos[id] == Info(addr.service, addr.services, Max(0, Announced(addr, source, penalty)), source,
                                    0, 0, 0, 0, 1, false, st'.infos[id].randomPos)
         else st'.newTab == st.newTab && forall x :: x in st.infos ==> Kept(st.infos, st'.infos, x)
  {
    hide NewOk, RefOk, TriedOk, CountOk, RandomOk, EntriesOk, AnnouncedSlot, SourceSlot, IsTerrible, ClearNew,
         Insertable, Delete;
    KnownId(st, addr.service.net);
    var p := if addr.service.net == source then 0 else penalty;
    var st1, id := Created(st, addr, source, p), st.idCount;
    CreatedLoose(st, addr, source, p);
    CreatedFacts(st, addr, source, p, now);
    var s := AnnouncedSlot(st, addr, source);
    HomelessOwnsNothing(st1, id, {} + {id}, 0, s);
    if Insertable(st1, id, s, now) {
      ClearNewLoose(st1, s, {} + {id}, 0);
      ClearNewKeeps(st1, s, {} + {id}, 0, id);
      assert (st.newTab - {s})[s := id] == st.newTab[s := id];
    } else {
      forall x | x in st.infos
        ensures Kept(st.infos, Delete(st1, id).infos, x)
        ensures Delete(st1, id).newTab == st.newTab
      {
        DeleteKeeps(st1, id, x);
      }
      DeleteTables(st1, id);
    }
  }

  lemma DeleteTables(st: State, id: int)
    requires RandomOk(st.infos, st.random)
    requires id in st.infos && !st.infos[id].inTried && st.infos[id].refCount == 0
    ensures Delete(st, id).newTab == st.newTab && Delete(st, id).triedTab == st.triedTab
  {
  }
}
