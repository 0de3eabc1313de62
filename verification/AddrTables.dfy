/**
 The state of the address manager as a value: its five redundant indexes and counters, the
 primitive table operations, and the consistency that each of them keeps.
 */
module AddrTables {

  const TRIED_BUCKET_COUNT: nat := 256
  const NEW_BUCKET_COUNT: nat := 1024
  const BUCKET_SIZE: nat := 64
  const TRIED_BUCKETS_PER_GROUP: nat := 8
  const NEW_BUCKETS_PER_SOURCE_GROUP: nat := 64
  const NEW_BUCKETS_PER_ADDRESS: nat := 8

  datatype NetAddr = NetAddr(ip: nat)
  datatype Service = Service(net: NetAddr, port: nat)

  /** An address as announced by a peer; `services` is the set of service bits. */
  datatype Address = Address(service: Service, services: set<nat>, time: int)

  datatype Info = Info(
    service: Service, services: set<nat>, time: int, source: NetAddr,
    lastTry: int, lastCountAttempt: int, lastSuccess: int, attempts: int,
    refCount: int, inTried: bool, randomPos: int)

  // ---------------------------------------------------------------- hashed positions

  datatype Message =
    | AddrMsg(key: nat, service: Service)
    | TriedMsg(key: nat, group: nat, spread: nat)
    | GroupsMsg(key: nat, group: nat, sourceGroup: nat)
    | NewMsg(key: nat, sourceGroup: nat, spread: nat)
    | PositionMsg(key: nat, isNew: bool, bucket: nat, service: Service)

  /** The outside world: address groups, routability and the cheap hash of a message. */
  datatype Env = Env(group: NetAddr -> nat, routable: NetAddr -> bool, hash: Message -> nat)

  datatype Slot = Slot(bucket: nat, pos: nat)

  function TriedBucket(env: Env, key: nat, service: Service): (b: nat)
    ensures b < TRIED_BUCKET_COUNT
  {
    var h := env.hash(AddrMsg(key, service));
    env.hash(TriedMsg(key, env.group(service.net), h % TRIED_BUCKETS_PER_GROUP)) % TRIED_BUCKET_COUNT
  }

  function NewBucket(env: Env, key: nat, service: Service, source: NetAddr): (b: nat)
    ensures b < NEW_BUCKET_COUNT
  {
    var h := env.hash(GroupsMsg(key, env.group(service.net), env.group(source)));
    env.hash(NewMsg(key, env.group(source), h % NEW_BUCKETS_PER_SOURCE_GROUP)) % NEW_BUCKET_COUNT
  }

  function Position(env: Env, key: nat, isNew: bool, bucket: nat, service: Service): (p: nat)
    ensures p < BUCKET_SIZE
  {
    env.hash(PositionMsg(key, isNew, bucket, service)) % BUCKET_SIZE
  }

  function NewSlot(env: Env, key: nat, service: Service, bucket: nat): Slot {
    Slot(bucket, Position(env, key, true, bucket, service))
  }

  function TriedSlot(env: Env, key: nat, service: Service): Slot {
    var bucket := TriedBucket(env, key, service);
    Slot(bucket, Position(env, key, false, bucket, service))
  }

  // ---------------------------------------------------------------- state

  /** A bucket table; an absent slot is the source's -1. */
  type Table = map<Slot, int>
  type Infos = map<int, Info>

  datatype State = State(
    env: Env, key: nat, idCount: nat, infos: Infos, addrs: map<NetAddr, int>, random: seq<int>,
    nTried: int, triedTab: Table, nNew: int, newTab: Table, lastGood: int)

  function SlotsOf(tab: Table, id: int): set<Slot> {
    set s | s in tab && tab[s] == id
  }

  /** Slots that loops over buckets and positions have passed at bucket `n`, position `i`. */
  predicate Before(s: Slot, n: nat, i: nat) {
    s.bucket < n || (s.bucket == n && s.pos < i)
  }

  function TriedIds(infos: Infos): set<int> {
    set id | id in infos && infos[id].inTried
  }

  function NewIds(infos: Infos): set<int> {
    set id | id in infos && !infos[id].inTried
  }

  // ---------------------------------------------------------------- consistency

  ghost predicate PlacedAt(infos: Infos, id: int, i: int) {
    id in infos && infos[id].randomPos == i
  }

  /** `random` lists every id once and each entry knows its place in it. */
  ghost predicate RandomOk(infos: Infos, random: seq<int>) {
    && (forall id :: id in infos ==>
          0 <= infos[id].randomPos < |random| && random[infos[id].randomPos] == id)
    && (forall i :: 0 <= i < |random| ==> PlacedAt(infos, random[i], i))
  }

  ghost predicate HasAddr(infos: Infos, id: int, a: NetAddr) {
    id in infos && infos[id].service.net == a
  }

  ghost predicate AddrOk(infos: Infos, addrs: map<NetAddr, int>) {
    && (forall id :: id in infos ==>
          infos[id].service.net in addrs && addrs[infos[id].service.net] == id)
    && (forall a :: a in addrs ==> HasAddr(infos, addrs[a], a))
  }

  ghost predicate NewSlotOk(env: Env, key: nat, infos: Infos, s: Slot, id: int) {
    && id in infos && !infos[id].inTried
    && s.bucket < NEW_BUCKET_COUNT && s == NewSlot(env, key, infos[id].service, s.bucket)
  }

  /** A new-table slot is its entry's hashed position in that bucket. */
  ghost predicate NewOk(env: Env, key: nat, infos: Infos, tab: Table) {
    forall s :: s in tab ==> NewSlotOk(env, key, infos, s, tab[s])
  }

  /** Reference counts are the numbers of slots occupied. */
  ghost predicate RefOk(infos: Infos, tab: Table) {
    forall id :: id in infos ==> infos[id].refCount == |SlotsOf(tab, id)|
  }

  ghost predicate TriedSlotOk(env: Env, key: nat, infos: Infos, s: Slot, id: int) {
    id in infos && infos[id].inTried && s == TriedSlot(env, key, infos[id].service)
  }

  /** The tried table holds exactly the tried entries, each at its one hashed position. */
  ghost predicate TriedOk(env: Env, key: nat, infos: Infos, tab: Table) {
    && (forall s :: s in tab ==> TriedSlotOk(env, key, infos, s, tab[s]))
    && (forall id :: id in infos && infos[id].inTried ==>
          var s := TriedSlot(env, key, infos[id].service); s in tab && tab[s] == id)
  }

  ghost predicate EntryOk(info: Info, homeless: bool) {
    && info.lastTry >= 0 && info.lastSuccess >= 0
    && (info.inTried ==> info.refCount == 0 && info.lastSuccess != 0 && !homeless)
    && (!info.inTried ==> if homeless then info.refCount == 0
                          else 1 <= info.refCount <= NEW_BUCKETS_PER_ADDRESS)
  }

  /** `homeless` entries sit, for the moment, in neither table. */
  ghost predicate EntriesOk(infos: Infos, idCount: int, homeless: set<int>) {
    && homeless <= infos.Keys
    && (forall id :: id in infos ==> 0 <= id < idCount && EntryOk(infos[id], id in homeless))
  }

  /** `uncounted` entries outside the tried table are, for the moment, missing from `nNew`. */
  ghost predicate CountOk(infos: Infos, nTried: int, nNew: int, uncounted: int) {
    nTried == |TriedIds(infos)| && nNew + uncounted == |NewIds(infos)|
  }

  ghost predicate Loose(st: State, homeless: set<int>, uncounted: int) {
    && st.key != 0
    && RandomOk(st.infos, st.random)
    && AddrOk(st.infos, st.addrs)
    && NewOk(st.env, st.key, st.infos, st.newTab)
    && RefOk(st.infos, st.newTab)
    && TriedOk(st.env, st.key, st.infos, st.triedTab)
    && EntriesOk(st.infos, st.idCount, homeless)
    && CountOk(st.infos, st.nTried, st.nNew, uncounted)
  }

  /** The consistency the manager keeps between calls. */
  ghost predicate Inv(st: State) {
    Loose(st, {}, 0)
  }

  function Clear(env: Env, key: nat): State {
    State(env, key, 0, map[], map[], [], 0, map[], 0, map[], 1)
  }

  lemma ClearInv(env: Env, key: nat)
    requires key != 0
    ensures Inv(Clear(env, key))
  {
    assert TriedIds(map[]) == {} && NewIds(map[]) == {};
  }

  // ---------------------------------------------------------------- re-placing entries

  /** The same entries in the same tables; statistics and places in `random` may differ. */
  ghost predicate SameHomes(infos: Infos, infos': Infos) {
    && (forall id :: id in infos <==> id in infos')
    && forall id {:trigger infos'[id]} {:trigger infos[id]} :: id in infos ==>
         && infos'[id].service == infos[id].service && infos'[id].source == infos[id].source
         && infos'[id].refCount == infos[id].refCount
         && infos'[id].inTried == infos[id].inTried
  }

  lemma SameHomesLoose(st: State, infos: Infos, random: seq<int>, homeless: set<int>, uncounted: int)
    requires Loose(st, homeless, uncounted) && SameHomes(st.infos, infos)
    requires EntriesOk(infos, st.idCount, homeless) && RandomOk(infos, random)
    ensures Loose(st.(infos := infos, random := random), homeless, uncounted)
  {
    hide EntriesOk, RandomOk, NewOk, TriedOk, AddrOk, RefOk, SameHomes;
    SameHomesTables(st, infos);
    SameHomesIds(st.infos, infos);
  }

  lemma SameHomesTables(st: State, infos: Infos)
    requires SameHomes(st.infos, infos)
    requires AddrOk(st.infos, st.addrs)
    requires NewOk(st.env, st.key, st.infos, st.newTab) && RefOk(st.infos, st.newTab)
    requires TriedOk(st.env, st.key, st.infos, st.triedTab)
    ensures AddrOk(infos, st.addrs)
    ensures NewOk(st.env, st.key, infos, st.newTab) && RefOk(infos, st.newTab)
    ensures TriedOk(st.env, st.key, infos, st.triedTab)
  {
    hide SlotsOf, TriedSlot, NewSlot;
  }

  lemma SameHomesIds(infos: Infos, infos': Infos)
    requires SameHomes(infos, infos')
    ensures TriedIds(infos') == TriedIds(infos) && NewIds(infos') == NewIds(infos)
  {
    forall id: int
      ensures id in TriedIds(infos') <==> id in TriedIds(infos)
      ensures id in NewIds(infos') <==> id in NewIds(infos)
    {
    }
  }

  ghost predicate SameRandomPos(infos: Infos, infos': Infos) {
    && (forall id :: id in infos <==> id in infos')
    && forall id {:trigger infos'[id]} {:trigger infos[id]} :: id in infos ==>
         infos'[id].randomPos == infos[id].randomPos
  }

  lemma SameRandom(infos: Infos, infos': Infos, random: seq<int>)
    requires RandomOk(infos, random) && SameRandomPos(infos, infos')
    ensures RandomOk(infos', random)
  {
  }

  /** Setting one entry moves its id to the matching set. */
  lemma IdsSet(infos: Infos, id: int, info: Info)
    ensures TriedIds(infos[id := info])
         == if info.inTried then TriedIds(infos) + {id} else TriedIds(infos) - {id}
    ensures NewIds(infos[id := info])
         == if info.inTried then NewIds(infos) - {id} else NewIds(infos) + {id}
  {
    var infos' := infos[id := info];
    forall x: int
      ensures x in TriedIds(infos') <==> if x == id then info.inTried else x in TriedIds(infos)
      ensures x in NewIds(infos') <==> if x == id then !info.inTried else x in NewIds(infos)
    {
    }
  }

  lemma IdsDrop(infos: Infos, id: int)
    ensures TriedIds(infos - {id}) == TriedIds(infos) - {id}
    ensures NewIds(infos - {id}) == NewIds(infos) - {id}
  {
    forall x: int
      ensures x in TriedIds(infos - {id}) <==> x != id && x in TriedIds(infos)
      ensures x in NewIds(infos - {id}) <==> x != id && x in NewIds(infos)
    {
    }
  }

  // ---------------------------------------------------------------- SwapRandom

  function Swapped(infos: Infos, random: seq<int>, i: nat, j: nat): Infos
    requires i < |random| && j < |random| && random[i] in infos && random[j] in infos
  {
    var id1, id2 := random[i], random[j];
    var infos1 := infos[id1 := infos[id1].(randomPos := j)];
    infos1[id2 := infos1[id2].(randomPos := i)]
  }

  /** Exchanges two places of `random`; the ids there must be known. */
  function SwapRandom(st: State, i: nat, j: nat): State
    requires i < |st.random| && j < |st.random|
    requires st.random[i] in st.infos && st.random[j] in st.infos
  {
    if i == j then st else
      st.(infos := Swapped(st.infos, st.random, i, j),
          random := st.random[i := st.random[j]][j := st.random[i]])
  }

  lemma SwapRandomOk(infos: Infos, random: seq<int>, i: nat, j: nat)
    requires RandomOk(infos, random) && i < |random| && j < |random| && i != j
    ensures PlacedAt(infos, random[i], i) && PlacedAt(infos, random[j], j)
    ensures RandomOk(Swapped(infos, random, i, j), random[i := random[j]][j := random[i]])
  {
    var id1, id2 := random[i], random[j];
    assert PlacedAt(infos, id1, i) && PlacedAt(infos, id2, j);
    var infos', random' := Swapped(infos, random, i, j), random[i := id2][j := id1];
    forall k | 0 <= k < |random'|
      ensures PlacedAt(infos', random'[k], k)
    {
      assert PlacedAt(infos, random[k], k);
      var id := random[k];
      assert k != i && k != j ==> id != id1 && id != id2;
    }
  }

  lemma SwapLoose(st: State, i: nat, j: nat, homeless: set<int>, uncounted: int)
    requires Loose(st, homeless, uncounted) && i < |st.random| && j < |st.random|
    ensures PlacedAt(st.infos, st.random[i], i) && PlacedAt(st.infos, st.random[j], j)
    ensures Loose(SwapRandom(st, i, j), homeless, uncounted)
    ensures SameHomes(st.infos, SwapRandom(st, i, j).infos)
  {
    assert PlacedAt(st.infos, st.random[i], i) && PlacedAt(st.infos, st.random[j], j);
    if i != j {
      SwapRandomOk(st.infos, st.random, i, j);
      var st' := SwapRandom(st, i, j);
      SwapEntries(st.infos, st.random, i, j, st.idCount, homeless);
      SameHomesLoose(st, st'.infos, st'.random, homeless, uncounted);
    }
  }

  lemma SwapEntries(infos: Infos, random: seq<int>, i: nat, j: nat, idCount: int, homeless: set<int>)
    requires i < |random| && j < |random| && i != j
    requires PlacedAt(infos, random[i], i) && PlacedAt(infos, random[j], j)
    requires EntriesOk(infos, idCount, homeless)
    ensures SameHomes(infos, Swapped(infos, random, i, j))
    ensures EntriesOk(Swapped(infos, random, i, j), idCount, homeless)
  {
    var id1, id2 := random[i], random[j];
    assert id1 in infos && id2 in infos;
  }

  // ---------------------------------------------------------------- Create and Delete

  function Fresh(addr: Address, source: NetAddr, randomPos: int): Info {
    Info(addr.service, addr.services, addr.time, source, 0, 0, 0, 0, 0, false, randomPos)
  }

  function Create(st: State, addr: Address, source: NetAddr): State {
    var id := st.idCount;
    st.(idCount := id + 1,
        infos := st.infos[id := Fresh(addr, source, |st.random|)],
        addrs := st.addrs[addr.service.net := id],
        random := st.random + [id])
  }

  lemma CreateLoose(st: State, addr: Address, source: NetAddr, homeless: set<int>, uncounted: int)
    requires Loose(st, homeless, uncounted) && addr.service.net !in st.addrs
    ensures st.idCount !in st.infos
    ensures Loose(Create(st, addr, source), homeless + {st.idCount}, uncounted + 1)
  {
    hide RandomOk, AddrOk, NewOk, RefOk, TriedOk;
    CreateEntries(st, addr, source, homeless);
    CreateRandom(st, addr, source);
    CreateTables(st, addr, source);
    IdsSet(st.infos, st.idCount, Fresh(addr, source, |st.random|));
  }

  lemma CreateEntries(st: State, addr: Address, source: NetAddr, homeless: set<int>)
    requires EntriesOk(st.infos, st.idCount, homeless)
    ensures st.idCount !in st.infos
    ensures EntriesOk(Create(st, addr, source).infos, st.idCount + 1, homeless + {st.idCount})
  {
  }

  lemma CreateRandom(st: State, addr: Address, source: NetAddr)
    requires RandomOk(st.infos, st.random) && AddrOk(st.infos, st.addrs)
    requires addr.service.net !in st.addrs && st.idCount !in st.infos
    ensures
      var st' := Create(st, addr, source);
      RandomOk(st'.infos, st'.random) && AddrOk(st'.infos, st'.addrs)
  {
    hide RandomOk, AddrOk;
    CreatePlaces(st, addr, source);
    CreateAddrs(st, addr, source);
  }

  lemma CreatePlaces(st: State, addr: Address, source: NetAddr)
    requires RandomOk(st.infos, st.random) && st.idCount !in st.infos
    ensures
      var st' := Create(st, addr, source);
      RandomOk(st'.infos, st'.random)
  {
    var st' := Create(st, addr, source);
    forall i | 0 <= i < |st'.random|
      ensures PlacedAt(st'.infos, st'.random[i], i)
    {
      if i < |st.random| { assert PlacedAt(st.infos, st.random[i], i); }
    }
  }

  lemma CreateAddrs(st: State, addr: Address, source: NetAddr)
    requires AddrOk(st.infos, st.addrs) && addr.service.net !in st.addrs && st.idCount !in st.infos
    ensures
      var st' := Create(st, addr, source);
      AddrOk(st'.infos, st'.addrs)
  {
    var st' := Create(st, addr, source);
    forall a | a in st'.addrs
      ensures HasAddr(st'.infos, st'.addrs[a], a)
    {
      if a != addr.service.net { assert HasAddr(st.infos, st.addrs[a], a); }
    }
  }

  lemma CreateTables(st: State, addr: Address, source: NetAddr)
    requires NewOk(st.env, st.key, st.infos, st.newTab) && RefOk(st.infos, st.newTab)
    requires TriedOk(st.env, st.key, st.infos, st.triedTab)
    requires st.idCount !in st.infos
    ensures
      var st' := Create(st, addr, source);
      && NewOk(st.env, st.key, st'.infos, st.newTab) && RefOk(st'.infos, st.newTab)
      && TriedOk(st.env, st.key, st'.infos, st.triedTab)
  {
    hide TriedSlot, NewSlot;
    var id := st.idCount;
    assert SlotsOf(st.newTab, id) == {} by {
      forall s | s in st.newTab
        ensures st.newTab[s] != id
      {
        assert NewSlotOk(st.env, st.key, st.infos, s, st.newTab[s]);
      }
    }
  }

  /** Delete once the entry has been swapped to the end of `random`. */
  function DropLast(st: State, id: int): State
    requires id in st.infos && st.random != []
  {
    st.(random := st.random[..|st.random| - 1],
        addrs := st.addrs - {st.infos[id].service.net},
        infos := st.infos - {id},
        nNew := st.nNew - 1)
  }

  /** Removes an entry that is not in tried and has no reference left. */
  ghost function Delete(st: State, id: int): State
    requires RandomOk(st.infos, st.random)
    requires id in st.infos && !st.infos[id].inTried && st.infos[id].refCount == 0
  {
    var i, j := st.infos[id].randomPos, |st.random| - 1;
    assert PlacedAt(st.infos, st.random[i], i) && PlacedAt(st.infos, st.random[j], j);
    DropLast(SwapRandom(st, i, j), id)
  }

  lemma DeleteLoose(st: State, id: int, homeless: set<int>, uncounted: int)
    requires Loose(st, homeless, uncounted) && id in homeless
    ensures id in st.infos && !st.infos[id].inTried && st.infos[id].refCount == 0
    ensures Loose(Delete(st, id), homeless - {id}, uncounted)
  {
    hide RandomOk, AddrOk, NewOk, RefOk, TriedOk, SwapRandom, Swapped;
    HomelessFacts(st, id, homeless, uncounted);
    var i, j := st.infos[id].randomPos, |st.random| - 1;
    SwapLoose(st, i, j, homeless, uncounted);
    var st1 := SwapRandom(st, i, j);
    SwapMoves(st, id, i, j);
    DropRandom(st1, id);
    DropTables(st1, id);
    DropEntries(st1, id, homeless);
    IdsDrop(st1.infos, id);
  }

  lemma HomelessFacts(st: State, id: int, homeless: set<int>, uncounted: int)
    requires Loose(st, homeless, uncounted) && id in homeless
    ensures id in st.infos && !st.infos[id].inTried && st.infos[id].refCount == 0
    ensures 0 <= st.infos[id].randomPos < |st.random|
    ensures SlotsOf(st.newTab, id) == {}
  {
    assert EntryOk(st.infos[id], true);
  }

  lemma SwapMoves(st: State, id: int, i: nat, j: nat)
    requires i < |st.random| && j < |st.random|
    requires RandomOk(st.infos, st.random) && PlacedAt(st.infos, id, i)
    requires PlacedAt(st.infos, st.random[i], i) && PlacedAt(st.infos, st.random[j], j)
    ensures PlacedAt(SwapRandom(st, i, j).infos, id, j)
    ensures |SwapRandom(st, i, j).random| == |st.random|
  {
    assert st.random[i] == id;
  }

  lemma DropRandom(st: State, id: int)
    requires RandomOk(st.infos, st.random) && AddrOk(st.infos, st.addrs)
    requires PlacedAt(st.infos, id, |st.random| - 1)
    ensures
      var st' := DropLast(st, id);
      RandomOk(st'.infos, st'.random) && AddrOk(st'.infos, st'.addrs)
  {
    var n, st' := |st.random| - 1, DropLast(st, id);
    forall i | 0 <= i < n
      ensures PlacedAt(st'.infos, st'.random[i], i)
    {
      assert PlacedAt(st.infos, st.random[i], i);
    }
    forall a | a in st'.addrs
      ensures HasAddr(st'.infos, st'.addrs[a], a)
    {
      assert HasAddr(st.infos, st.addrs[a], a);
    }
  }

  lemma DropTables(st: State, id: int)
    requires NewOk(st.env, st.key, st.infos, st.newTab) && RefOk(st.infos, st.newTab)
    requires TriedOk(st.env, st.key, st.infos, st.triedTab)
    requires id in st.infos && !st.infos[id].inTried && st.infos[id].refCount == 0
    ensures
      var infos := st.infos - {id};
      && NewOk(st.env, st.key, infos, st.newTab) && RefOk(infos, st.newTab)
      && TriedOk(st.env, st.key, infos, st.triedTab)
  {
    hide TriedSlot, NewSlot;
    var infos := st.infos - {id};
    assert SlotsOf(st.newTab, id) == {};
    forall s | s in st.newTab
      ensures NewSlotOk(st.env, st.key, infos, s, st.newTab[s])
    {
      assert NewSlotOk(st.env, st.key, st.infos, s, st.newTab[s]);
      assert st.newTab[s] == id ==> s in SlotsOf(st.newTab, id);
    }
    forall s | s in st.triedTab
      ensures TriedSlotOk(st.env, st.key, infos, s, st.triedTab[s])
    {
      assert TriedSlotOk(st.env, st.key, st.infos, s, st.triedTab[s]);
    }
  }

  lemma DropEntries(st: State, id: int, homeless: set<int>)
    requires EntriesOk(st.infos, st.idCount, homeless)
    ensures EntriesOk(st.infos - {id}, st.idCount, homeless - {id})
  {
  }

  // ---------------------------------------------------------------- slots of the new table

  function SetRef(st: State, id: int, refCount: int): Infos
    requires id in st.infos
  {
    st.infos[id := st.infos[id].(refCount := refCount)]
  }

  /** Empties a new-table slot and drops the reference it stood for. */
  function Release(st: State, s: Slot): State
    requires s in st.newTab && st.newTab[s] in st.infos
  {
    var id := st.newTab[s];
    st.(infos := SetRef(st, id, st.infos[id].refCount - 1), newTab := st.newTab - {s})
  }

  /** Gives an entry the (empty) new-table slot `s`. */
  function Occupy(st: State, s: Slot, id: int): State
    requires id in st.infos
  {
    st.(infos := SetRef(st, id, st.infos[id].refCount + 1), newTab := st.newTab[s := id])
  }

  lemma SlotsDrop(tab: Table, s: Slot, id: int)
    requires s in tab
    ensures SlotsOf(tab - {s}, id) == SlotsOf(tab, id) - {s}
    ensures |SlotsOf(tab - {s}, id)| == |SlotsOf(tab, id)| - if tab[s] == id then 1 else 0
  {
    assert SlotsOf(tab - {s}, id) == SlotsOf(tab, id) - {s};
    if tab[s] == id {
      assert s in SlotsOf(tab, id);
    }
  }

  lemma SlotsAdd(tab: Table, s: Slot, id: int, owner: int)
    requires s !in tab
    ensures SlotsOf(tab[s := owner], id) == SlotsOf(tab, id) + if owner == id then {s} else {}
    ensures |SlotsOf(tab[s := owner], id)| == |SlotsOf(tab, id)| + if owner == id then 1 else 0
  {
    assert SlotsOf(tab[s := owner], id) == SlotsOf(tab, id) + if owner == id then {s} else {};
    assert s !in SlotsOf(tab, id);
  }

  /** Changing the reference count of one entry touches only the new table's bookkeeping. */
  lemma SetRefTables(st: State, id: int, refCount: int)
    requires id in st.infos
    requires RandomOk(st.infos, st.random) && AddrOk(st.infos, st.addrs)
    requires TriedOk(st.env, st.key, st.infos, st.triedTab)
    ensures
      var infos := SetRef(st, id, refCount);
      && RandomOk(infos, st.random) && AddrOk(infos, st.addrs)
      && TriedOk(st.env, st.key, infos, st.triedTab)
      && TriedIds(infos) == TriedIds(st.infos) && NewIds(infos) == NewIds(st.infos)
  {
    hide TriedSlot, RandomOk, AddrOk, TriedOk;
    var infos := SetRef(st, id, refCount);
    IdsSet(st.infos, id, infos[id]);
    SameRandom(st.infos, infos, st.random);
    SameIdentity(st, infos);
  }

  lemma SameIdentity(st: State, infos: Infos)
    requires forall id :: id in infos <==> id in st.infos
    requires forall id {:trigger infos[id]} {:trigger st.infos[id]} :: id in infos ==>
      infos[id].service == st.infos[id].service && infos[id].inTried == st.infos[id].inTried
    requires AddrOk(st.infos, st.addrs) && TriedOk(st.env, st.key, st.infos, st.triedTab)
    ensures AddrOk(infos, st.addrs) && TriedOk(st.env, st.key, infos, st.triedTab)
  {
    hide TriedSlot;
  }

  lemma ReleaseNew(st: State, s: Slot)
    requires NewOk(st.env, st.key, st.infos, st.newTab) && RefOk(st.infos, st.newTab)
    requires s in st.newTab
    ensures NewSlotOk(st.env, st.key, st.infos, s, st.newTab[s])
    ensures
      var st' := Release(st, s);
      NewOk(st.env, st.key, st'.infos, st'.newTab) && RefOk(st'.infos, st'.newTab)
  {
    hide NewSlot, SlotsOf;
    var owner := st.newTab[s];
    assert NewSlotOk(st.env, st.key, st.infos, s, owner);
    var st' := Release(st, s);
    forall t | t in st'.newTab
      ensures NewSlotOk(st.env, st.key, st'.infos, t, st'.newTab[t])
    {
      assert NewSlotOk(st.env, st.key, st.infos, t, st.newTab[t]);
    }
    forall id | id in st'.infos
      ensures st'.infos[id].refCount == |SlotsOf(st'.newTab, id)|
    {
      SlotsDrop(st.newTab, s, id);
    }
  }

  lemma ReleaseLoose(st: State, s: Slot, homeless: set<int>, uncounted: int)
    requires Loose(st, homeless, uncounted) && s in st.newTab
    ensures
      var id := st.newTab[s];
      && id in st.infos && st.infos[id].refCount > 0 && !st.infos[id].inTried && id !in homeless
      && Loose(Release(st, s), if st.infos[id].refCount == 1 then homeless + {id} else homeless, uncounted)
  {
    hide RandomOk, AddrOk, NewOk, TriedOk, RefOk;
    ReleaseNew(st, s);
    var id := st.newTab[s];
    OwnerFacts(st, s, homeless, uncounted);
    SetRefTables(st, id, st.infos[id].refCount - 1);
    ReleaseEntries(st, s, homeless);
  }

  lemma OwnerFacts(st: State, s: Slot, homeless: set<int>, uncounted: int)
    requires Loose(st, homeless, uncounted) && s in st.newTab
    ensures
      var id := st.newTab[s];
      id in st.infos && st.infos[id].refCount > 0 && !st.infos[id].inTried && id !in homeless
  {
    hide RandomOk, AddrOk, TriedOk, CountOk;
    var id := st.newTab[s];
    assert NewSlotOk(st.env, st.key, st.infos, s, id);
    assert s in SlotsOf(st.newTab, id);
    assert |SlotsOf(st.newTab, id)| > 0;
    assert EntryOk(st.infos[id], id in homeless);
  }

  lemma ReleaseEntries(st: State, s: Slot, homeless: set<int>)
    requires s in st.newTab && st.newTab[s] in st.infos && !st.infos[st.newTab[s]].inTried
    requires EntriesOk(st.infos, st.idCount, homeless) && st.newTab[s] !in homeless
    ensures
      var id := st.newTab[s];
      EntriesOk(Release(st, s).infos, st.idCount,
                if st.infos[id].refCount == 1 then homeless + {id} else homeless)
  {
    var id := st.newTab[s];
    assert EntryOk(st.infos[id], false);
  }

  /** Clears a new-table slot; the entry dies with its last reference. */
  ghost function ClearNew(st: State, s: Slot): State
    requires RandomOk(st.infos, st.random)
    requires s in st.newTab ==>
      var id := st.newTab[s]; id in st.infos && st.infos[id].refCount > 0 && !st.infos[id].inTried
  {
    if s !in st.newTab then st else
      var id, st1 := st.newTab[s], Release(st, s);
      SameRandom(st.infos, st1.infos, st.random);
      if st1.infos[id].refCount == 0 then Delete(st1, id) else st1
  }

  lemma ClearNewLoose(st: State, s: Slot, homeless: set<int>, uncounted: int)
    requires Loose(st, homeless, uncounted)
    ensures s in st.newTab ==>
      var id := st.newTab[s]; id in st.infos && st.infos[id].refCount > 0 && !st.infos[id].inTried
    ensures Loose(ClearNew(st, s), homeless, uncounted)
    ensures s !in ClearNew(st, s).newTab
  {
    hide RandomOk, AddrOk, NewOk, RefOk, TriedOk, EntriesOk, CountOk;
    if s in st.newTab {
      ReleaseLoose(st, s, homeless, uncounted);
      var id, st1 := st.newTab[s], Release(st, s);
      if st1.infos[id].refCount == 0 {
        DeleteLoose(st1, id, homeless + {id}, uncounted);
        assert homeless + {id} - {id} == homeless;
      }
    }
  }

  lemma OccupyNew(st: State, s: Slot, id: int)
    requires NewOk(st.env, st.key, st.infos, st.newTab) && RefOk(st.infos, st.newTab)
    requires s !in st.newTab && NewSlotOk(st.env, st.key, st.infos, s, id)
    ensures
      var st' := Occupy(st, s, id);
      NewOk(st.env, st.key, st'.infos, st'.newTab) && RefOk(st'.infos, st'.newTab)
  {
    hide NewSlot, SlotsOf;
    var st' := Occupy(st, s, id);
    forall t | t in st'.newTab
      ensures NewSlotOk(st.env, st.key, st'.infos, t, st'.newTab[t])
    {
      if t != s {
        assert NewSlotOk(st.env, st.key, st.infos, t, st.newTab[t]);
      }
    }
    forall x | x in st'.infos
      ensures st'.infos[x].refCount == |SlotsOf(st'.newTab, x)|
    {
      SlotsAdd(st.newTab, s, x, id);
    }
  }

  lemma OccupyLoose(st: State, s: Slot, id: int, homeless: set<int>, uncounted: int)
    requires Loose(st, homeless, uncounted) && s !in st.newTab
    requires NewSlotOk(st.env, st.key, st.infos, s, id)
    requires st.infos[id].refCount < NEW_BUCKETS_PER_ADDRESS
    ensures Loose(Occupy(st, s, id), homeless - {id}, uncounted)
  {
    hide RandomOk, AddrOk, NewOk, TriedOk, RefOk;
    OccupyNew(st, s, id);
    SetRefTables(st, id, st.infos[id].refCount + 1);
    OccupyEntries(st, s, id, homeless);
  }

  lemma OccupyEntries(st: State, s: Slot, id: int, homeless: set<int>)
    requires id in st.infos && !st.infos[id].inTried
    requires EntriesOk(st.infos, st.idCount, homeless)
    requires st.infos[id].refCount < NEW_BUCKETS_PER_ADDRESS
    ensures EntriesOk(Occupy(st, s, id).infos, st.idCount, homeless - {id})
  {
    assert EntryOk(st.infos[id], id in homeless);
  }

  // ---------------------------------------------------------------- leaving the new table

  /** The slots that the clean-up loop of MakeTried has emptied after `b` buckets. */
  function HeldBelow(st: State, id: int, b: nat): set<Slot>
    requires id in st.infos
  {
    set s | s in st.newTab && st.newTab[s] == id && s.bucket < b
            && s == NewSlot(st.env, st.key, st.infos[id].service, s.bucket)
  }

  function DetachBelow(st: State, id: int, b: nat): State
    requires id in st.infos
  {
    var held := HeldBelow(st, id, b);
    st.(infos := SetRef(st, id, st.infos[id].refCount - |held|), newTab := st.newTab - held)
  }

  function Detach(st: State, id: int): State
    requires id in st.infos
  {
    DetachBelow(st, id, NEW_BUCKET_COUNT)
  }

  /** In a consistent table an entry's own positions are all the slots it has. */
  lemma HeldIsAll(st: State, id: int)
    requires NewOk(st.env, st.key, st.infos, st.newTab) && id in st.infos
    ensures HeldBelow(st, id, NEW_BUCKET_COUNT) == SlotsOf(st.newTab, id)
  {
    hide NewSlot;
    forall s | s in SlotsOf(st.newTab, id)
      ensures s in HeldBelow(st, id, NEW_BUCKET_COUNT)
    {
      assert NewSlotOk(st.env, st.key, st.infos, s, st.newTab[s]);
    }
  }

  lemma DetachNew(st: State, id: int)
    requires NewOk(st.env, st.key, st.infos, st.newTab) && RefOk(st.infos, st.newTab)
    requires id in st.infos
    ensures
      var st' := Detach(st, id);
      && NewOk(st.env, st.key, st'.infos, st'.newTab) && RefOk(st'.infos, st'.newTab)
      && st'.infos[id].refCount == 0
  {
    hide NewSlot;
    HeldIsAll(st, id);
    var st' := Detach(st, id);
    forall t | t in st'.newTab
      ensures NewSlotOk(st.env, st.key, st'.infos, t, st'.newTab[t])
    {
      assert NewSlotOk(st.env, st.key, st.infos, t, st.newTab[t]);
    }
    forall x | x in st'.infos
      ensures st'.infos[x].refCount == |SlotsOf(st'.newTab, x)|
    {
      DetachSlots(st.newTab, SlotsOf(st.newTab, id), id, x);
    }
  }

  lemma DetachSlots(tab: Table, held: set<Slot>, id: int, x: int)
    requires held == SlotsOf(tab, id)
    ensures SlotsOf(tab - held, x) == if x == id then {} else SlotsOf(tab, x)
  {
  }

  lemma DetachLoose(st: State, id: int, homeless: set<int>, uncounted: int)
    requires Loose(st, homeless, uncounted) && id in st.infos && !st.infos[id].inTried
    ensures Loose(Detach(st, id), homeless + {id}, uncounted)
    ensures id in Detach(st, id).infos && Detach(st, id).infos[id] == st.infos[id].(refCount := 0)
  {
    hide RandomOk, AddrOk, NewOk, TriedOk, RefOk, HeldBelow;
    DetachNew(st, id);
    var st' := Detach(st, id);
    SetRefTables(st, id, st'.infos[id].refCount);
    DetachEntries(st, id, homeless);
  }

  lemma DetachEntries(st: State, id: int, homeless: set<int>)
    requires EntriesOk(st.infos, st.idCount, homeless) && id in st.infos && !st.infos[id].inTried
    ensures EntriesOk(SetRef(st, id, 0), st.idCount, homeless + {id})
  {
    assert EntryOk(st.infos[id], id in homeless);
  }

  // ---------------------------------------------------------------- the tried table

  function SetTried(st: State, id: int, inTried: bool): Infos
    requires id in st.infos
  {
    st.infos[id := st.infos[id].(inTried := inTried)]
  }

  function EnterTried(st: State, s: Slot, id: int): State
    requires id in st.infos
  {
    st.(infos := SetTried(st, id, true), triedTab := st.triedTab[s := id], nTried := st.nTried + 1)
  }

  function LeaveTried(st: State, s: Slot): State
    requires s in st.triedTab && st.triedTab[s] in st.infos
  {
    st.(infos := SetTried(st, st.triedTab[s], false), triedTab := st.triedTab - {s},
        nTried := st.nTried - 1)
  }

  lemma SetTriedOthers(st: State, id: int, inTried: bool)
    requires id in st.infos && SlotsOf(st.newTab, id) == {}
    requires RandomOk(st.infos, st.random) && AddrOk(st.infos, st.addrs)
    requires NewOk(st.env, st.key, st.infos, st.newTab) && RefOk(st.infos, st.newTab)
    ensures
      var infos := SetTried(st, id, inTried);
      && RandomOk(infos, st.random) && AddrOk(infos, st.addrs)
      && NewOk(st.env, st.key, infos, st.newTab) && RefOk(infos, st.newTab)
  {
    hide NewSlot, RandomOk;
    var infos := SetTried(st, id, inTried);
    SameRandom(st.infos, infos, st.random);
    forall s | s in st.newTab
      ensures NewSlotOk(st.env, st.key, infos, s, st.newTab[s])
    {
      assert NewSlotOk(st.env, st.key, st.infos, s, st.newTab[s]);
      assert st.newTab[s] == id ==> s in SlotsOf(st.newTab, id);
    }
  }

  lemma EnterTriedLoose(st: State, id: int, homeless: set<int>, uncounted: int)
    requires Loose(st, homeless, uncounted) && id in homeless && st.infos[id].lastSuccess > 0
    requires TriedSlot(st.env, st.key, st.infos[id].service) !in st.triedTab
    ensures
      var s := TriedSlot(st.env, st.key, st.infos[id].service);
      Loose(EnterTried(st, s, id), homeless - {id}, uncounted - 1)
  {
    hide RandomOk, AddrOk, NewOk, RefOk, TriedOk;
    var s := TriedSlot(st.env, st.key, st.infos[id].service);
    HomelessFacts(st, id, homeless, uncounted);
    SetTriedOthers(st, id, true);
    EnterTriedTab(st, id);
    IdsSet(st.infos, id, st.infos[id].(inTried := true));
    EnterTriedEntries(st, id, homeless);
  }

  lemma EnterTriedTab(st: State, id: int)
    requires TriedOk(st.env, st.key, st.infos, st.triedTab) && id in st.infos
    requires TriedSlot(st.env, st.key, st.infos[id].service) !in st.triedTab
    ensures
      var s := TriedSlot(st.env, st.key, st.infos[id].service);
      TriedOk(st.env, st.key, SetTried(st, id, true), st.triedTab[s := id])
  {
    hide TriedSlot;
    var s := TriedSlot(st.env, st.key, st.infos[id].service);
    var infos, tab := SetTried(st, id, true), st.triedTab[s := id];
    forall t | t in tab
      ensures TriedSlotOk(st.env, st.key, infos, t, tab[t])
    {
      if t != s {
        assert TriedSlotOk(st.env, st.key, st.infos, t, st.triedTab[t]);
      }
    }
  }

  lemma EnterTriedEntries(st: State, id: int, homeless: set<int>)
    requires EntriesOk(st.infos, st.idCount, homeless) && id in homeless
    requires st.infos[id].lastSuccess > 0
    ensures EntriesOk(SetTried(st, id, true), st.idCount, homeless - {id})
  {
    assert EntryOk(st.infos[id], true);
  }

  lemma LeaveTriedTab(st: State, s: Slot)
    requires TriedOk(st.env, st.key, st.infos, st.triedTab) && s in st.triedTab
    ensures TriedSlotOk(st.env, st.key, st.infos, s, st.triedTab[s])
    ensures TriedOk(st.env, st.key, SetTried(st, st.triedTab[s], false), st.triedTab - {s})
  {
    hide TriedSlot;
    var id := st.triedTab[s];
    assert TriedSlotOk(st.env, st.key, st.infos, s, id);
    var infos, tab := SetTried(st, id, false), st.triedTab - {s};
    forall t | t in tab
      ensures TriedSlotOk(st.env, st.key, infos, t, tab[t])
    {
      assert TriedSlotOk(st.env, st.key, st.infos, t, st.triedTab[t]);
    }
  }

  lemma LeaveTriedLoose(st: State, s: Slot, homeless: set<int>, uncounted: int)
    requires Loose(st, homeless, uncounted) && s in st.triedTab
    ensures
      var id := st.triedTab[s];
      && id in st.infos && st.infos[id].inTried && id !in homeless
      && Loose(LeaveTried(st, s), homeless + {id}, uncounted + 1)
  {
    hide RandomOk, AddrOk, NewOk, RefOk, TriedOk;
    var id := st.triedTab[s];
    LeaveTriedTab(st, s);
    TriedHasNoSlots(st, id, homeless, uncounted);
    SetTriedOthers(st, id, false);
    IdsSet(st.infos, id, st.infos[id].(inTried := false));
    assert id in TriedIds(st.infos) && id !in NewIds(st.infos);
    LeaveTriedEntries(st, id, homeless);
  }

  lemma TriedHasNoSlots(st: State, id: int, homeless: set<int>, uncounted: int)
    requires Loose(st, homeless, uncounted) && id in st.infos && st.infos[id].inTried
    ensures SlotsOf(st.newTab, id) == {} && id !in homeless
  {
    assert EntryOk(st.infos[id], id in homeless);
  }

  lemma LeaveTriedEntries(st: State, id: int, homeless: set<int>)
    requires EntriesOk(st.infos, st.idCount, homeless) && id in st.infos && st.infos[id].inTried
    ensures EntriesOk(SetTried(st, id, false), st.idCount, homeless + {id})
  {
    assert EntryOk(st.infos[id], id in homeless);
  }
}
