/**
 The public operations of the address manager on its state value. Every one keeps the whole
 consistency condition, and every assertion in the source is a precondition proved here.
 */
module AddrOps {
  import opened AddrTables

  const HORIZON_DAYS: int := 30
  const RETRIES: int := 3
  const MAX_FAILURES: int := 10
  const MIN_FAIL_DAYS: int := 7
  const DAY: int := 24 * 60 * 60

  function IsTerrible(info: Info, now: int): bool {
    if info.lastTry != 0 && info.lastTry >= now - 60 then false
    else if info.time > now + 10 * 60 then true
    else if info.time == 0 || now - info.time > HORIZON_DAYS * DAY then true
    else if info.lastSuccess == 0 && info.attempts >= RETRIES then true
    else now - info.lastSuccess > MIN_FAIL_DAYS * DAY && info.attempts >= MAX_FAILURES
  }

  // ---------------------------------------------------------------- what a step leaves alone

  /** Entry `x` survives with all it had, except perhaps its place in `random`. */
  ghost predicate Kept(infos: Infos, infos': Infos, x: int) {
    x in infos && x in infos' && infos'[x] == infos[x].(randomPos := infos'[x].randomPos)
  }

  lemma SwapKeeps(infos: Infos, random: seq<int>, i: nat, j: nat, x: int)
    requires i < |random| && j < |random| && random[i] in infos && random[j] in infos && x in infos
    ensures Kept(infos, Swapped(infos, random, i, j), x)
  {
    var id1, id2 := random[i], random[j];
    assert id1 in infos && id2 in infos;
  }

  lemma DeleteKeeps(st: State, id: int, x: int)
    requires RandomOk(st.infos, st.random) && x in st.infos && x != id
    requires id in st.infos && !st.infos[id].inTried && st.infos[id].refCount == 0
    ensures Kept(st.infos, Delete(st, id).infos, x)
    ensures Delete(st, id).newTab == st.newTab && Delete(st, id).triedTab == st.triedTab
  {
    hide Swapped;
    var i, j := st.infos[id].randomPos, |st.random| - 1;
    assert PlacedAt(st.infos, st.random[i], i) && PlacedAt(st.infos, st.random[j], j);
    SwapKeeps(st.infos, st.random, i, j, x);
  }

  /** Clearing a slot affects nobody but the owner of the slot. */
  lemma ClearNewKeeps(st: State, s: Slot, homeless: set<int>, uncounted: int, x: int)
    requires Loose(st, homeless, uncounted) && x in st.infos
    requires s in st.newTab ==> st.newTab[s] != x
    ensures s in st.newTab ==>
      var id := st.newTab[s]; id in st.infos && st.infos[id].refCount > 0 && !st.infos[id].inTried
    ensures Kept(st.infos, ClearNew(st, s).infos, x)
    ensures ClearNew(st, s).newTab == st.newTab - {s}
    ensures ClearNew(st, s).triedTab == st.triedTab
    ensures ClearNew(st, s).env == st.env && ClearNew(st, s).key == st.key
  {
    hide RandomOk, AddrOk, NewOk, RefOk, TriedOk, EntriesOk, CountOk, Delete;
    if s in st.newTab {
      ReleaseLoose(st, s, homeless, uncounted);
      var id, st1 := st.newTab[s], Release(st, s);
      if st1.infos[id].refCount == 0 {
        DeleteKeeps(st1, id, x);
        DeleteFrame(st1, id);
      }
    } else {
      assert st.newTab - {s} == st.newTab;
    }
  }

  lemma DeleteFrame(st: State, id: int)
    requires RandomOk(st.infos, st.random)
    requires id in st.infos && !st.infos[id].inTried && st.infos[id].refCount == 0
    ensures
      var st' := Delete(st, id);
      && st'.env == st.env && st'.key == st.key && st'.newTab == st.newTab
      && st'.triedTab == st.triedTab
  {
    var i, j := st.infos[id].randomPos, |st.random| - 1;
    assert PlacedAt(st.infos, st.random[i], i) && PlacedAt(st.infos, st.random[j], j);
  }

  // ---------------------------------------------------------------- MakeTried

  lemma Recount(st: State, homeless: set<int>, uncounted: int, delta: int)
    requires Loose(st, homeless, uncounted)
    ensures Loose(st.(nNew := st.nNew - delta), homeless, uncounted + delta)
  {
    hide RandomOk, AddrOk, NewOk, RefOk, TriedOk, EntriesOk;
  }

  /** The new-table slot an evicted entry falls back to: that of its own source. */
  function HomeSlot(st: State, id: int): Slot
    requires id in st.infos
  {
    var info := st.infos[id];
    NewSlot(st.env, st.key, info.service, NewBucket(st.env, st.key, info.service, info.source))
  }

  /** Moves the entry in tried slot `s` back to the new table. */
  ghost function Evict(st: State, s: Slot, homeless: set<int>, uncounted: int): State
    requires Loose(st, homeless, uncounted) && s in st.triedTab
  {
    LeaveTriedLoose(st, s, homeless, uncounted);
    var id := st.triedTab[s];
    var st1 := LeaveTried(st, s);
    var u := HomeSlot(st1, id);
    HomelessOwnsNothing(st1, id, homeless + {id}, uncounted + 1, u);
    ClearNewLoose(st1, u, homeless + {id}, uncounted + 1);
    ClearNewKeeps(st1, u, homeless + {id}, uncounted + 1, id);
    var st2 := ClearNew(st1, u);
    var st3 := st2.(infos := SetRef(st2, id, 1), newTab := st2.newTab[u := id]);
    st3.(nNew := st3.nNew + 1)
  }

  lemma HomelessOwnsNothing(st: State, id: int, homeless: set<int>, uncounted: int, s: Slot)
    requires Loose(st, homeless, uncounted) && id in homeless
    ensures id in st.infos && (s in st.newTab ==> st.newTab[s] != id)
  {
    hide RandomOk, AddrOk, NewOk, RefOk, TriedOk, EntriesOk, CountOk;
    HomelessFacts(st, id, homeless, uncounted);
    assert s in st.newTab && st.newTab[s] == id ==> s in SlotsOf(st.newTab, id);
  }

  lemma EvictLoose(st: State, s: Slot, homeless: set<int>, uncounted: int)
    requires Loose(st, homeless, uncounted) && s in st.triedTab
    ensures Loose(Evict(st, s, homeless, uncounted), homeless, uncounted)
    ensures Evict(st, s, homeless, uncounted).triedTab == st.triedTab - {s}
    ensures Evict(st, s, homeless, uncounted).env == st.env
    ensures Evict(st, s, homeless, uncounted).key == st.key
  {
    hide RandomOk, AddrOk, NewOk, RefOk, TriedOk, EntriesOk, CountOk, HomeSlot, ClearNew;
    LeaveTriedLoose(st, s, homeless, uncounted);
    var id := st.triedTab[s];
    var st1 := LeaveTried(st, s);
    var u := HomeSlot(st1, id);
    HomelessOwnsNothing(st1, id, homeless + {id}, uncounted + 1, u);
    ClearNewLoose(st1, u, homeless + {id}, uncounted + 1);
    ClearNewKeeps(st1, u, homeless + {id}, uncounted + 1, id);
    var st2 := ClearNew(st1, u);
    HomelessFacts(st2, id, homeless + {id}, uncounted + 1);
    assert NewSlotOk(st2.env, st2.key, st2.infos, u, id) by {
      HomeSlotOk(st1, st2, id);
    }
    OccupyLoose(st2, u, id, homeless + {id}, uncounted + 1);
    Recount(Occupy(st2, u, id), homeless + {id} - {id}, uncounted + 1, -1);
    assert homeless + {id} - {id} == homeless;
  }

  lemma HomeSlotOk(st: State, st': State, id: int)
    requires Kept(st.infos, st'.infos, id) && st'.env == st.env && st'.key == st.key
    requires !st.infos[id].inTried
    ensures NewSlotOk(st'.env, st'.key, st'.infos, HomeSlot(st, id), id)
  {
  }

  /** Eviction touches nobody but the evicted entry and the owner of the slot it falls back to. */
  lemma EvictKeeps(st: State, s: Slot, homeless: set<int>, uncounted: int, x: int)
    requires Loose(st, homeless, uncounted) && s in st.triedTab && x in st.infos
    requires x != st.triedTab[s] && st.triedTab[s] in st.infos
    requires
      var u := HomeSlot(st, st.triedTab[s]);
      u in st.newTab ==> st.newTab[u] != x
    ensures Kept(st.infos, Evict(st, s, homeless, uncounted).infos, x)
  {
    hide RandomOk, AddrOk, NewOk, RefOk, TriedOk, EntriesOk, CountOk, ClearNew, NewSlot, NewBucket;
    LeaveTriedLoose(st, s, homeless, uncounted);
    var id := st.triedTab[s];
    var st1 := LeaveTried(st, s);
    var u := HomeSlot(st1, id);
    HomelessOwnsNothing(st1, id, homeless + {id}, uncounted + 1, u);
    ClearNewKeeps(st1, u, homeless + {id}, uncounted + 1, id);
    ClearNewKeeps(st1, u, homeless + {id}, uncounted + 1, x);
  }

  lemma EvictKeepsHomeless(st: State, s: Slot, homeless: set<int>, uncounted: int, x: int)
    requires Loose(st, homeless, uncounted) && s in st.triedTab && x in homeless
    ensures Kept(st.infos, Evict(st, s, homeless, uncounted).infos, x)
  {
    hide RandomOk, AddrOk, NewOk, RefOk, TriedOk, EntriesOk, CountOk, Evict, HomeSlot;
    LeaveTriedLoose(st, s, homeless, uncounted);
    HomelessFacts(st, x, homeless, uncounted);
    HomelessOwnsNothing(st, x, homeless, uncounted, HomeSlot(st, st.triedTab[s]));
    EvictKeeps(st, s, homeless, uncounted, x);
  }

  /** The evicted entry is back in the new table, with one reference, at its own source's slot. */
  lemma EvictedIsBack(st: State, s: Slot, homeless: set<int>, uncounted: int)
    requires Loose(st, homeless, uncounted) && s in st.triedTab
    ensures st.triedTab[s] in st.infos
    ensures
      var id, st' := st.triedTab[s], Evict(st, s, homeless, uncounted);
      var u := HomeSlot(st, id);
      && id in st'.infos && !st'.infos[id].inTried && st'.infos[id].refCount == 1
      && u in st'.newTab && st'.newTab[u] == id
  {
    hide RandomOk, AddrOk, NewOk, RefOk, TriedOk, EntriesOk, CountOk, ClearNew, NewSlot, NewBucket;
    LeaveTriedLoose(st, s, homeless, uncounted);
    var id := st.triedTab[s];
    var st1 := LeaveTried(st, s);
    var u := HomeSlot(st1, id);
    HomelessOwnsNothing(st1, id, homeless + {id}, uncounted + 1, u);
    ClearNewKeeps(st1, u, homeless + {id}, uncounted + 1, id);
  }

  /** Takes the entry out of every new bucket and puts it at its place in the tried table. */
  ghost function MakeTried(st: State, id: int): State
    requires Inv(st) && id in st.infos && !st.infos[id].inTried && st.infos[id].lastSuccess > 0
  {
    DetachLoose(st, id, {}, 0);
    Recount(Detach(st, id), {} + {id}, 0, 1);
    var st1 := Detach(st, id).(nNew := st.nNew - 1);
    var s := TriedSlot(st.env, st.key, st.infos[id].service);
    if s in st1.triedTab then
      EvictKeepsHomeless(st1, s, {} + {id}, 1, id);
      EnterTried(Evict(st1, s, {} + {id}, 1), s, id)
    else
      EnterTried(st1, s, id)
  }

  lemma MakeTriedInv(st: State, id: int)
    requires Inv(st) && id in st.infos && !st.infos[id].inTried && st.infos[id].lastSuccess > 0
    ensures Inv(MakeTried(st, id))
    ensures id in MakeTried(st, id).infos && MakeTried(st, id).infos[id].inTried
  {
    hide RandomOk, AddrOk, NewOk, RefOk, TriedOk, EntriesOk, CountOk, Evict, TriedSlot, Detach;
    DetachLoose(st, id, {}, 0);
    Recount(Detach(st, id), {} + {id}, 0, 1);
    DetachFrame(st, id);
    var st1 := Detach(st, id).(nNew := st.nNew - 1);
    var s := TriedSlot(st.env, st.key, st.infos[id].service);
    assert {} + {id} - {id} == {};
    if s in st1.triedTab {
      EvictKeepsHomeless(st1, s, {} + {id}, 1, id);
      EvictLoose(st1, s, {} + {id}, 1);
      EnterTriedLoose(Evict(st1, s, {} + {id}, 1), id, {} + {id}, 1);
    } else {
      EnterTriedLoose(st1, id, {} + {id}, 1);
    }
  }

  lemma DetachFrame(st: State, id: int)
    requires id in st.infos
    ensures
      var st' := Detach(st, id);
      st'.env == st.env && st'.key == st.key && st'.nNew == st.nNew && st'.triedTab == st.triedTab
  {
  }

  // ---------------------------------------------------------------- Good, Attempt, Connected, SetServices

  /** The id of an address, if the manager knows it. */
  ghost predicate Known(st: State, net: NetAddr) {
    net in st.addrs && st.addrs[net] in st.infos
  }

  /** The entry for exactly this service (same port), which the statistics calls update. */
  ghost predicate KnownExactly(st: State, service: Service) {
    Known(st, service.net) && st.infos[st.addrs[service.net]].service == service
  }

  lemma KnownId(st: State, net: NetAddr)
    requires AddrOk(st.infos, st.addrs)
    ensures Known(st, net) <==> net in st.addrs
    ensures net in st.addrs ==> HasAddr(st.infos, st.addrs[net], net)
  {
  }

  ghost function SetInfo(st: State, id: int, info: Info): State {
    st.(infos := st.infos[id := info])
  }

  /** Updating an entry's statistics keeps everything. */
  lemma SetInfoInv(st: State, id: int, info: Info)
    requires Inv(st) && id in st.infos
    requires info.service == st.infos[id].service && info.source == st.infos[id].source
    requires info.refCount == st.infos[id].refCount && info.inTried == st.infos[id].inTried
    requires info.randomPos == st.infos[id].randomPos
    requires info.lastTry >= 0 && info.lastSuccess >= 0
    requires info.inTried ==> info.lastSuccess != 0
    ensures Inv(SetInfo(st, id, info))
  {
    hide AddrOk, NewOk, RefOk, TriedOk, CountOk, RandomOk;
    var infos := st.infos[id := info];
    SameRandom(st.infos, infos, st.random);
    assert EntryOk(st.infos[id], false);
    SameHomesLoose(st, infos, st.random, {}, 0);
  }

  function Succeeded(info: Info, time: int): Info {
    info.(lastSuccess := time, lastTry := time, attempts := 0)
  }

  ghost function Good(st: State, service: Service, time: int): State
    requires Inv(st) && time > 0
  {
    var st0 := st.(lastGood := time);
    if !KnownExactly(st, service) then st0 else
      var id := st.addrs[service.net];
      var st1 := SetInfo(st0, id, Succeeded(st.infos[id], time));
      if st.infos[id].inTried then st1 else
        GoodReady(st, id, time);
        MakeTried(st1, id)
  }

  lemma GoodReady(st: State, id: int, time: int)
    requires Inv(st) && time > 0 && id in st.infos
    ensures Inv(SetInfo(st.(lastGood := time), id, Succeeded(st.infos[id], time)))
  {
    hide AddrOk, NewOk, RefOk, TriedOk, CountOk, RandomOk, EntriesOk;
    SetInfoInv(st.(lastGood := time), id, Succeeded(st.infos[id], time));
  }

  /** Good keeps the invariant, and an exactly known address ends up in the tried table. */
  lemma GoodInv(st: State, service: Service, time: int)
    requires Inv(st) && time > 0
    ensures Inv(Good(st, service, time))
    ensures KnownExactly(st, service) ==>
      var id := st.addrs[service.net];
      id in Good(st, service, time).infos && Good(st, service, time).infos[id].inTried
  {
    hide AddrOk, NewOk, RefOk, TriedOk, CountOk, RandomOk, EntriesOk, MakeTried;
    if KnownExactly(st, service) {
      var id := st.addrs[service.net];
      GoodReady(st, id, time);
      if !st.infos[id].inTried {
        MakeTriedInv(SetInfo(st.(lastGood := time), id, Succeeded(st.infos[id], time)), id);
      }
    }
  }

  /** The search of Good_ always finds a bucket, so its bail-out is dead. */
  lemma GoodFindsBucket(st: State, id: int) returns (b: nat)
    requires Inv(st) && id in st.infos && !st.infos[id].inTried
    ensures b < NEW_BUCKET_COUNT
    ensures
      var s := NewSlot(st.env, st.key, st.infos[id].service, b);
      s in st.newTab && st.newTab[s] == id
  {
    hide RandomOk, AddrOk, TriedOk, CountOk, NewSlot;
    assert EntryOk(st.infos[id], false);
    assert |SlotsOf(st.newTab, id)| >= 1;
    var s :| s in SlotsOf(st.newTab, id);
    assert NewSlotOk(st.env, st.key, st.infos, s, st.newTab[s]);
    b := s.bucket;
  }

  ghost function Attempt(st: State, service: Service, countFailure: bool, time: int): State
  {
    if !KnownExactly(st, service) then st else
      var id := st.addrs[service.net];
      var info := st.infos[id].(lastTry := time);
      SetInfo(st, id,
              if countFailure && info.lastCountAttempt < st.lastGood
              then info.(lastCountAttempt := time, attempts := info.attempts + 1) else info)
  }

  ghost function Connected(st: State, service: Service, time: int): State {
    if !KnownExactly(st, service) then st else
      var id := st.addrs[service.net];
      if time - st.infos[id].time > 20 * 60
      then SetInfo(st, id, st.infos[id].(time := time)) else st
  }

  ghost function SetServices(st: State, service: Service, services: set<nat>): State {
    if !KnownExactly(st, service) then st else
      var id := st.addrs[service.net];
      SetInfo(st, id, st.infos[id].(services := services))
  }

  lemma StatisticsInv(st: State, service: Service, countFailure: bool, time: int, services: set<nat>)
    requires Inv(st) && time >= 0
    ensures Inv(Attempt(st, service, countFailure, time))
    ensures Inv(Connected(st, service, time))
    ensures Inv(SetServices(st, service, services))
  {
    hide AddrOk, NewOk, RefOk, TriedOk, CountOk, RandomOk;
    if KnownExactly(st, service) {
      var id := st.addrs[service.net];
      assert EntryOk(st.infos[id], false);
      SetInfoInv(st, id, Attempt(st, service, countFailure, time).infos[id]);
      SetInfoInv(st, id, st.infos[id].(time := time));
      SetInfoInv(st, id, st.infos[id].(services := services));
    }
  }

  // ---------------------------------------------------------------- Add

  function SourceSlot(st: State, id: int, source: NetAddr): Slot
    requires id in st.infos
  {
    var service := st.infos[id].service;
    NewSlot(st.env, st.key, service, NewBucket(st.env, st.key, service, source))
  }

  /** An occupied slot gives way if its entry is terrible, or is elsewhere and the newcomer is not. */
  predicate GivesWay(owner: Info, newcomer: Info, now: int) {
    IsTerrible(owner, now) || (owner.refCount > 1 && newcomer.refCount == 0)
  }

  ghost predicate Insertable(st: State, id: int, s: Slot, now: int)
    requires id in st.infos
  {
    s in st.newTab ==>
      st.newTab[s] in st.infos && GivesWay(st.infos[st.newTab[s]], st.infos[id], now)
  }

  /** The end of Add_: give entry `id` the slot of `source`, or drop it if it has none at all. */
  ghost function Place(st: State, id: int, source: NetAddr, now: int, homeless: set<int>): State
    requires Loose(st, homeless, 0) && id in st.infos && !st.infos[id].inTried && homeless <= {id}
  {
    var s := SourceSlot(st, id, source);
    if s in st.newTab && st.newTab[s] == id then st
    else if Insertable(st, id, s, now) then
      ClearNewLoose(st, s, homeless, 0);
      ClearNewKeeps(st, s, homeless, 0, id);
      Occupy(ClearNew(st, s), s, id)
    else if st.infos[id].refCount == 0 then Delete(st, id)
    else st
  }

  lemma SourceSlotOk(st: State, st': State, id: int, source: NetAddr)
    requires Kept(st.infos, st'.infos, id) && st'.env == st.env && st'.key == st.key
    requires !st.infos[id].inTried
    ensures NewSlotOk(st'.env, st'.key, st'.infos, SourceSlot(st, id, source), id)
  {
  }

  lemma HomelessByCount(st: State, id: int, homeless: set<int>, uncounted: int)
    requires Loose(st, homeless, uncounted) && id in st.infos && !st.infos[id].inTried
    ensures id in homeless <==> st.infos[id].refCount == 0
    ensures id !in homeless ==> 1 <= st.infos[id].refCount <= NEW_BUCKETS_PER_ADDRESS
  {
    assert EntryOk(st.infos[id], id in homeless);
  }

  lemma PlaceInv(st: State, id: int, source: NetAddr, now: int, homeless: set<int>)
    requires Loose(st, homeless, 0) && id in st.infos && !st.infos[id].inTried && homeless <= {id}
    requires st.infos[id].refCount < NEW_BUCKETS_PER_ADDRESS
    ensures Inv(Place(st, id, source, now, homeless))
  {
    hide RandomOk, AddrOk, NewOk, RefOk, TriedOk, EntriesOk, CountOk, SourceSlot, ClearNew, Occupy,
         Delete, Insertable;
    var s := SourceSlot(st, id, source);
    HomelessByCount(st, id, homeless, 0);
    assert homeless - {id} == {};
    assert id !in homeless ==> homeless == {};
    if s in st.newTab && st.newTab[s] == id {
      OwnerFacts(st, s, homeless, 0);
    } else if Insertable(st, id, s, now) {
      ClearNewLoose(st, s, homeless, 0);
      ClearNewKeeps(st, s, homeless, 0, id);
      SourceSlotOk(st, ClearNew(st, s), id, source);
      OccupyLoose(ClearNew(st, s), s, id, homeless, 0);
    } else if st.infos[id].refCount == 0 {
      DeleteLoose(st, id, homeless, 0);
    }
  }

  function Max(a: int, b: int): int { if a <= b then b else a }

  /** How an announcement updates the time and services of a known entry. */
  function Refreshed(info: Info, addr: Address, penalty: int, now: int): Info {
    var interval := if now - addr.time < DAY then 60 * 60 else DAY;
    var time := if addr.time != 0 && (info.time == 0 || info.time < addr.time - interval - penalty)
                then Max(0, addr.time - penalty) else info.time;
    info.(time := time, services := info.services + addr.services)
  }

  /** Nothing more is done for a known entry without news, in tried, at its limit, or unlucky. */
  predicate Satisfied(info: Info, addr: Address, lucky: bool) {
    || addr.time == 0 || (info.time != 0 && addr.time <= info.time)
    || info.inTried
    || info.refCount == NEW_BUCKETS_PER_ADDRESS
    || (info.refCount > 0 && !lucky)
  }

  ghost function Created(st: State, addr: Address, source: NetAddr, penalty: int): State {
    var st1 := Create(st, addr, source);
    var id := st.idCount;
    var st2 := SetInfo(st1, id, st1.infos[id].(time := Max(0, addr.time - penalty)));
    st2.(nNew := st2.nNew + 1)
  }

  lemma CreatedLoose(st: State, addr: Address, source: NetAddr, penalty: int)
    requires Inv(st) && addr.service.net !in st.addrs
    ensures st.idCount in Created(st, addr, source, penalty).infos
    ensures !Created(st, addr, source, penalty).infos[st.idCount].inTried
    ensures Created(st, addr, source, penalty).infos[st.idCount].refCount == 0
    ensures Loose(Created(st, addr, source, penalty), {} + {st.idCount}, 0)
  {
    hide AddrOk, NewOk, RefOk, TriedOk, CountOk, RandomOk;
    var id, st1 := st.idCount, Create(st, addr, source);
    CreateLoose(st, addr, source, {}, 0);
    var infos := st1.infos[id := st1.infos[id].(time := Max(0, addr.time - penalty))];
    SameRandom(st1.infos, infos, st1.random);
    assert EntryOk(st1.infos[id], true);
    SameHomesLoose(st1, infos, st1.random, {} + {id}, 1);
    Recount(st1.(infos := infos), {} + {id}, 1, -1);
  }

  /** Add_ for one address; `lucky` is the outcome of the stochastic test. */
  ghost function Add(st: State, addr: Address, source: NetAddr, penalty: int, now: int, lucky: bool): (r: (State, bool))
    requires Inv(st)
  {
    var p := if addr.service.net == source then 0 else penalty;
    if !st.env.routable(addr.service.net) then (st, false)
    else if Known(st, addr.service.net) then
      var id := st.addrs[addr.service.net];
      var info := Refreshed(st.infos[id], addr, p, now);
      var st1 := SetInfo(st, id, info);
      if Satisfied(info, addr, lucky) then (st1, false)
      else
        RefreshedInv(st, id, addr, p, now);
        (Place(st1, id, source, now, {}), false)
    else
      KnownId(st, addr.service.net);
      CreatedLoose(st, addr, source, p);
      (Place(Created(st, addr, source, p), st.idCount, source, now, {} + {st.idCount}), true)
  }

  lemma RefreshedInv(st: State, id: int, addr: Address, penalty: int, now: int)
    requires Inv(st) && id in st.infos
    ensures Inv(SetInfo(st, id, Refreshed(st.infos[id], addr, penalty, now)))
  {
    hide AddrOk, NewOk, RefOk, TriedOk, CountOk, RandomOk;
    assert EntryOk(st.infos[id], false);
    SetInfoInv(st, id, Refreshed(st.infos[id], addr, penalty, now));
  }

  lemma AddInv(st: State, addr: Address, source: NetAddr, penalty: int, now: int, lucky: bool)
    requires Inv(st)
    ensures Inv(Add(st, addr, source, penalty, now, lucky).0)
    ensures Add(st, addr, source, penalty, now, lucky).1
       <==> st.env.routable(addr.service.net) && addr.service.net !in st.addrs
  {
    hide AddrOk, NewOk, RefOk, TriedOk, CountOk, RandomOk, EntriesOk, Place, Created, Refreshed;
    var p := if addr.service.net == source then 0 else penalty;
    KnownId(st, addr.service.net);
    if st.env.routable(addr.service.net) {
      if Known(st, addr.service.net) {
        var id := st.addrs[addr.service.net];
        RefreshedInv(st, id, addr, p, now);
        var info := Refreshed(st.infos[id], addr, p, now);
        var st1 := SetInfo(st, id, info);
        if !Satisfied(info, addr, lucky) {
          HomelessByCount(st1, id, {}, 0);
          PlaceInv(st1, id, source, now, {});
        }
      } else {
        CreatedLoose(st, addr, source, p);
        PlaceInv(Created(st, addr, source, p), st.idCount, source, now, {} + {st.idCount});
      }
    }
  }

  // ---------------------------------------------------------------- effects of Add and Good

  /** Where a first announcement of `addr` by `source` belongs. */
  function AnnouncedSlot(st: State, addr: Address, source: NetAddr): Slot {
    NewSlot(st.env, st.key, addr.service, NewBucket(st.env, st.key, addr.service, source))
  }

  ghost predicate RoomFor(st: State, s: Slot, now: int) {
    s in st.newTab ==>
      && st.newTab[s] in st.infos
      && (IsTerrible(st.infos[st.newTab[s]], now) || st.infos[st.newTab[s]].refCount > 1)
  }

  lemma CreatedFacts(st: State, addr: Address, source: NetAddr, penalty: int, now: int)
    requires Inv(st) && addr.service.net !in st.addrs
    ensures
      var st1, id := Created(st, addr, source, penalty), st.idCount;
      && id in st1.infos && st1.infos[id].service == addr.service
      && SourceSlot(st1, id, source) == AnnouncedSlot(st, addr, source)
      && st1.newTab == st.newTab && id !in st.infos
      && (forall x :: x in st.infos ==> x in st1.infos && st1.infos[x] == st.infos[x])
      && Insertable(st1, id, AnnouncedSlot(st, addr, source), now)
         == RoomFor(st, AnnouncedSlot(st, addr, source), now)
  {
    hide AddrOk, RefOk, TriedOk, CountOk, RandomOk, NewSlot, NewBucket, IsTerrible;
    var s := AnnouncedSlot(st, addr, source);
    assert st.idCount !in st.infos;
    if s in st.newTab {
      assert NewSlotOk(st.env, st.key, st.infos, s, st.newTab[s]);
      var owner := st.newTab[s];
      assert owner in st.infos;
    }
  }

  /** An unknown address is remembered exactly when its slot is free or gives way. */
  lemma AddUnknown(st: State, addr: Address, source: NetAddr, penalty: int, now: int, lucky: bool)
    requires Inv(st) && st.env.routable(addr.service.net) && addr.service.net !in st.addrs
    ensures addr.service.net in Add(st, addr, source, penalty, now, lucky).0.addrs
       <==> RoomFor(st, AnnouncedSlot(st, addr, source), now)
  {
    hide NewOk, RefOk, TriedOk, CountOk, RandomOk, EntriesOk, Created, Place, Insertable,
         AnnouncedSlot, SourceSlot, RoomFor;
    var p := if addr.service.net == source then 0 else penalty;
    KnownId(st, addr.service.net);
    var st1, id := Created(st, addr, source, p), st.idCount;
    CreatedLoose(st, addr, source, p);
    CreatedFacts(st, addr, source, p, now);
    PlaceFresh(st1, id, source, now);
    PlaceInv(st1, id, source, now, {} + {id});
    var st2 := Place(st1, id, source, now, {} + {id});
    KnownId(st2, addr.service.net);
  }

  /** A homeless newcomer survives the end of Add_ exactly when its slot can be had. */
  lemma PlaceFresh(st: State, id: int, source: NetAddr, now: int)
    requires Loose(st, {} + {id}, 0) && id in st.infos && !st.infos[id].inTried
    ensures
      var st', net := Place(st, id, source, now, {} + {id}), st.infos[id].service.net;
      if Insertable(st, id, SourceSlot(st, id, source), now)
      then HasAddr(st'.infos, id, net) else net !in st'.addrs
  {
    hide NewOk, RefOk, TriedOk, CountOk, RandomOk, EntriesOk, ClearNew, Insertable, SourceSlot;
    var s := SourceSlot(st, id, source);
    HomelessByCount(st, id, {} + {id}, 0);
    HomelessOwnsNothing(st, id, {} + {id}, 0, s);
    if Insertable(st, id, s, now) {
      ClearNewLoose(st, s, {} + {id}, 0);
      ClearNewKeeps(st, s, {} + {id}, 0, id);
    } else {
      DeleteForgets(st, id);
    }
  }

  lemma DeleteForgets(st: State, id: int)
    requires RandomOk(st.infos, st.random)
    requires id in st.infos && !st.infos[id].inTried && st.infos[id].refCount == 0
    ensures st.infos[id].service.net !in Delete(st, id).addrs
  {
    hide Swapped;
    var i, j := st.infos[id].randomPos, |st.random| - 1;
    assert PlacedAt(st.infos, st.random[i], i) && PlacedAt(st.infos, st.random[j], j);
    SwapKeeps(st.infos, st.random, i, j, id);
  }

  /** Add touches nobody but the announced entry and the previous owner of its slot. */
  lemma PlaceKeeps(st: State, id: int, source: NetAddr, now: int, homeless: set<int>, x: int)
    requires Loose(st, homeless, 0) && id in st.infos && !st.infos[id].inTried && homeless <= {id}
    requires x in st.infos && x != id
    requires
      var s := SourceSlot(st, id, source);
      s in st.newTab ==> st.newTab[s] != x
    ensures Kept(st.infos, Place(st, id, source, now, homeless).infos, x)
  {
    hide AddrOk, NewOk, RefOk, TriedOk, CountOk, EntriesOk, ClearNew, Insertable, SourceSlot, Delete,
         RandomOk;
    var s := SourceSlot(st, id, source);
    if s in st.newTab && st.newTab[s] == id {
    } else if Insertable(st, id, s, now) {
      ClearNewLoose(st, s, homeless, 0);
      ClearNewKeeps(st, s, homeless, 0, id);
      ClearNewKeeps(st, s, homeless, 0, x);
    } else if st.infos[id].refCount == 0 {
      DeleteKeeps(st, id, x);
    }
  }

  lemma AddKeeps(st: State, addr: Address, source: NetAddr, penalty: int, now: int, lucky: bool, x: int)
    requires Inv(st) && x in st.infos
    requires addr.service.net in st.addrs ==> st.addrs[addr.service.net] != x
    requires
      var net := addr.service.net;
      var s := if Known(st, net) then SourceSlot(st, st.addrs[net], source)
               else AnnouncedSlot(st, addr, source);
      s in st.newTab ==> st.newTab[s] != x
    ensures Kept(st.infos, Add(st, addr, source, penalty, now, lucky).0.infos, x)
  {
    hide AddrOk, NewOk, RefOk, TriedOk, CountOk, RandomOk, EntriesOk, Place, Created, Refreshed;
    var p := if addr.service.net == source then 0 else penalty;
    KnownId(st, addr.service.net);
    if st.env.routable(addr.service.net) {
      if Known(st, addr.service.net) {
        var id := st.addrs[addr.service.net];
        RefreshedInv(st, id, addr, p, now);
        var info := Refreshed(st.infos[id], addr, p, now);
        RefreshedService(st.infos[id], addr, p, now);
        if !Satisfied(info, addr, lucky) {
          PlaceKeeps(SetInfo(st, id, info), id, source, now, {}, x);
        }
      } else {
        CreatedLoose(st, addr, source, p);
        CreatedFacts(st, addr, source, p, now);
        PlaceKeeps(Created(st, addr, source, p), st.idCount, source, now, {} + {st.idCount}, x);
      }
    }
  }

  lemma RefreshedService(info: Info, addr: Address, penalty: int, now: int)
    ensures Refreshed(info, addr, penalty, now).service == info.service
  {
  }

  /**
   What moving an entry to tried does: it takes its hashed tried slot, a previous holder of
   that slot goes back to the new table, and nobody else changes except the owner of the
   new-table slot the evicted entry falls back to.
   */
  lemma MakeTriedEffect(st: State, id: int, x: int)
    requires Inv(st) && id in st.infos && !st.infos[id].inTried && st.infos[id].lastSuccess > 0
    requires x in st.infos && x != id
    ensures
      var st', s := MakeTried(st, id), TriedSlot(st.env, st.key, st.infos[id].service);
      && s in st'.triedTab && st'.triedTab[s] == id
      && if s in st.triedTab then
           var e := st.triedTab[s];
           && e in st.infos && e != id
           && (x == e ==> x in st'.infos && !st'.infos[x].inTried && st'.infos[x].refCount == 1)
           && (x != e && (HomeSlot(st, e) in st.newTab ==> st.newTab[HomeSlot(st, e)] != x) ==>
                 Kept(st.infos, st'.infos, x))
         else
           Kept(st.infos, st'.infos, x)
  {
    hide RandomOk, AddrOk, NewOk, RefOk, TriedOk, EntriesOk, CountOk, Evict, TriedSlot, NewSlot,
         NewBucket;
    DetachLoose(st, id, {}, 0);
    Recount(Detach(st, id), {} + {id}, 0, 1);
    DetachFrame(st, id);
    DetachKeeps(st, id, x);
    var st1 := Detach(st, id).(nNew := st.nNew - 1);
    var s := TriedSlot(st.env, st.key, st.infos[id].service);
    if s in st.triedTab {
      LeaveTriedLoose(st, s, {}, 0);
      var e := st.triedTab[s];
      EvictKeepsHomeless(st1, s, {} + {id}, 1, id);
      DetachKeeps(st, id, e);
      EvictedIsBack(st1, s, {} + {id}, 1);
      var u := HomeSlot(st, e);
      if x != e && (u in st.newTab ==> st.newTab[u] != x) {
        EvictKeeps(st1, s, {} + {id}, 1, x);
      }
    }
  }

  lemma DetachKeeps(st: State, id: int, x: int)
    requires id in st.infos && x in st.infos && x != id
    ensures Kept(st.infos, Detach(st, id).infos, x)
    ensures Detach(st, id).infos[x] == st.infos[x]
    ensures forall s :: s in Detach(st, id).newTab ==> s in st.newTab && Detach(st, id).newTab[s] == st.newTab[s]
  {
    hide HeldBelow;
  }

  // ---------------------------------------------------------------- Select

  /** The table Select_ draws from; `coin` is its random choice between the two. */
  function SelectsTried(st: State, newOnly: bool, coin: bool): bool {
    !newOnly && st.nTried > 0 && (st.nNew == 0 || coin)
  }

  lemma Member<T>(ids: set<T>) returns (id: T)
    requires |ids| > 0
    ensures id in ids
  {
    assert ids != {};
    id :| id in ids;
  }

  lemma SubsetSize<T>(a: set<T>, b: set<T>)
    requires a <= b
    ensures |a| <= |b|
  {
    assert b == a + (b - a);
  }

  /** Select_ never scans an empty table, and every slot it can stop at holds a known entry. */
  lemma SelectSafe(st: State, newOnly: bool, coin: bool) returns (s: Slot)
    requires Inv(st) && |st.random| > 0 && !(newOnly && st.nNew == 0)
    ensures
      var tab := if SelectsTried(st, newOnly, coin) then st.triedTab else st.newTab;
      s in tab && forall t :: t in tab ==> tab[t] in st.infos
  {
    hide AddrOk;
    forall t | t in st.triedTab
      ensures st.triedTab[t] in st.infos
    {
      assert TriedSlotOk(st.env, st.key, st.infos, t, st.triedTab[t]);
    }
    forall t | t in st.newTab
      ensures st.newTab[t] in st.infos
    {
      assert NewSlotOk(st.env, st.key, st.infos, t, st.newTab[t]);
    }
    if SelectsTried(st, newOnly, coin) {
      var id := Member(TriedIds(st.infos));
      s := TriedSlot(st.env, st.key, st.infos[id].service);
    } else {
      SizeIsSum(st);
      var id := Member(NewIds(st.infos));
      var b := GoodFindsBucket(st, id);
      s := NewSlot(st.env, st.key, st.infos[id].service, b);
    }
  }

  /** `size()` counts every entry once. */
  lemma SizeIsSum(st: State)
    requires RandomOk(st.infos, st.random) && CountOk(st.infos, st.nTried, st.nNew, 0)
    ensures |st.random| == |st.infos| == st.nTried + st.nNew
  {
    IdsSum(st.infos);
    RandomLists(st.infos, st.random);
  }

  lemma IdsSum(infos: Infos)
    ensures |infos| == |TriedIds(infos)| + |NewIds(infos)|
  {
    assert infos.Keys == TriedIds(infos) + NewIds(infos) by {
      forall id: int
        ensures id in infos.Keys <==> id in TriedIds(infos) || id in NewIds(infos)
      {
      }
    }
    assert TriedIds(infos) !! NewIds(infos);
  }

  lemma {:induction false} RandomLists(infos: Infos, random: seq<int>)
    requires RandomOk(infos, random)
    ensures |random| == |infos|
    decreases |random|
  {
    if random == [] {
      forall id: int
        ensures id !in infos
      {
      }
      assert infos == map[];
    } else {
      var n := |random| - 1;
      assert PlacedAt(infos, random[n], n);
      var id := random[n];
      var infos' := infos - {id};
      forall i | 0 <= i < n
        ensures PlacedAt(infos', random[..n][i], i)
      {
        assert PlacedAt(infos, random[i], i);
      }
      RandomLists(infos', random[..n]);
      assert infos'.Keys == infos.Keys - {id};
    }
  }
}
