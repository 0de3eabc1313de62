/**
 The manager's own consistency check, run over the arrays in place, and whole runs: whatever
 sequence of operations is applied after Clear, the check returns 0.
 */
module AddrChecks {
  import opened AddrTables
  import opened AddrOps
  import opened AddrManager

  // ---------------------------------------------------------------- runs

  datatype Op =
    | OpAdd(addr: Address, source: NetAddr, penalty: int, now: int, lucky: bool)
    | OpGood(service: Service, time: int)
    | OpAttempt(service: Service, countFailure: bool, time: int)
    | OpConnected(service: Service, time: int)
    | OpSetServices(service: Service, services: set<nat>)
    | OpShuffle(i: nat, j: nat)

  /** Timestamps are positive; GetAddr_ shuffles within the list of ids. */
  predicate Permitted(st: State, op: Op) {
    match op
    case OpGood(_, time) => time > 0
    case OpAttempt(_, _, time) => time > 0
    case OpConnected(_, time) => time > 0
    case OpShuffle(i, j) => i < |st.random| && j < |st.random|
    case _ => true
  }

  ghost function Apply(st: State, op: Op): State
    requires Inv(st) && Permitted(st, op)
  {
    match op
    case OpAdd(addr, source, penalty, now, lucky) => Add(st, addr, source, penalty, now, lucky).0
    case OpGood(service, time) => Good(st, service, time)
    case OpAttempt(service, countFailure, time) => Attempt(st, service, countFailure, time)
    case OpConnected(service, time) => Connected(st, service, time)
    case OpSetServices(service, services) => SetServices(st, service, services)
    case OpShuffle(i, j) =>
      assert PlacedAt(st.infos, st.random[i], i) && PlacedAt(st.infos, st.random[j], j);
      SwapRandom(st, i, j)
  }

  lemma ApplyInv(st: State, op: Op)
    requires Inv(st) && Permitted(st, op)
    ensures Inv(Apply(st, op))
  {
    hide RandomOk, AddrOk, NewOk, RefOk, TriedOk, EntriesOk, CountOk, Add, Good, Attempt, Connected,
         SetServices, SwapRandom;
    match op
    case OpAdd(addr, source, penalty, now, lucky) => AddInv(st, addr, source, penalty, now, lucky);
    case OpGood(service, time) => GoodInv(st, service, time);
    case OpAttempt(service, countFailure, time) => StatisticsInv(st, service, countFailure, time, {});
    case OpConnected(service, time) => StatisticsInv(st, service, false, time, {});
    case OpSetServices(service, services) => StatisticsInv(st, service, false, 1, services);
    case OpShuffle(i, j) => SwapLoose(st, i, j, {}, 0);
  }

  /** A step of a run; operations are only defined on consistent states. */
  ghost predicate Step(st: State, op: Op, st': State) {
    Inv(st) ==> Permitted(st, op) && st' == Apply(st, op)
  }

  ghost predicate Run(states: seq<State>, ops: seq<Op>) {
    && |states| == |ops| + 1
    && forall i :: 0 <= i < |ops| ==> Step(states[i], ops[i], states[i + 1])
  }

  /** Every run from Clear keeps every index, counter and reference count consistent. */
  lemma {:induction false} RunInv(env: Env, key: nat, states: seq<State>, ops: seq<Op>, k: nat)
    requires key != 0 && Run(states, ops) && states[0] == Clear(env, key) && k <= |ops|
    ensures Inv(states[k])
  {
    hide Inv;
    if k == 0 {
      ClearInv(env, key);
    } else {
      RunInv(env, key, states, ops, k - 1);
      assert Step(states[k - 1], ops[k - 1], states[k]);
      ApplyInv(states[k - 1], ops[k - 1]);
    }
  }

  // ---------------------------------------------------------------- what Check_ looks at

  function RefCounts(infos: Infos): map<int, int> {
    map id | id in infos && !infos[id].inTried :: infos[id].refCount
  }

  /** Looking a missing address up yields 0. */
  function Lookup(addrs: map<NetAddr, int>, a: NetAddr): int {
    if a in addrs then addrs[a] else 0
  }

  ghost predicate EntryChecked(infos: Infos, addrs: map<NetAddr, int>, random: seq<int>, id: int) {
    && id in infos && EntryOk(infos[id], false)
    && Lookup(addrs, infos[id].service.net) == id
    && 0 <= infos[id].randomPos < |random| && random[infos[id].randomPos] == id
  }

  ghost predicate EntriesChecked(infos: Infos, addrs: map<NetAddr, int>, random: seq<int>) {
    forall id :: id in infos ==> EntryChecked(infos, addrs, random, id)
  }

  /** The consistency that Check_ establishes. */
  ghost predicate Checked(st: State) {
    && st.key != 0
    && EntriesChecked(st.infos, st.addrs, st.random)
    && RandomOk(st.infos, st.random)
    && NewOk(st.env, st.key, st.infos, st.newTab)
    && RefOk(st.infos, st.newTab)
    && TriedOk(st.env, st.key, st.infos, st.triedTab)
    && CountOk(st.infos, st.nTried, st.nNew, 0)
  }

  /** What Check_ misses: ids out of range, stray addresses, and id 0 with no address at all. */
  ghost predicate Unchecked(st: State) {
    && (forall id :: id in st.infos ==> 0 <= id < st.idCount)
    && (forall a :: a in st.addrs ==> HasAddr(st.infos, st.addrs[a], a))
    && (0 in st.infos ==> st.infos[0].service.net in st.addrs)
  }

  lemma CheckedIff(st: State)
    ensures Inv(st) <==> Checked(st) && Unchecked(st)
  {
    hide NewOk, RefOk, TriedOk, CountOk, EntryOk, RandomOk;
    if Inv(st) {
      forall id | id in st.infos
        ensures EntryChecked(st.infos, st.addrs, st.random, id)
      {
        PlacedInRandom(st.infos, st.random, id);
      }
    }
    if Checked(st) && Unchecked(st) {
      forall id | id in st.infos
        ensures EntryOk(st.infos[id], false)
        ensures st.infos[id].service.net in st.addrs && st.addrs[st.infos[id].service.net] == id
      {
        assert EntryChecked(st.infos, st.addrs, st.random, id);
      }
    }
  }

  lemma PlacedInRandom(infos: Infos, random: seq<int>, id: int)
    requires RandomOk(infos, random) && id in infos
    ensures 0 <= infos[id].randomPos < |random| && random[infos[id].randomPos] == id
  {
  }

  ghost predicate Pointed(infos: Infos, random: seq<int>) {
    forall id :: id in infos ==> 0 <= infos[id].randomPos < |random| && random[infos[id].randomPos] == id
  }

  /** When every entry finds itself in a list of as many ids, the list holds nothing else. */
  lemma {:induction false} RandomFilled(infos: Infos, random: seq<int>)
    requires Pointed(infos, random)
    ensures |infos| <= |random|
    ensures |infos| == |random| ==> RandomOk(infos, random)
    decreases |random|
  {
    if random == [] {
      forall id: int
        ensures id !in infos
      {
      }
      assert infos == map[];
    } else {
      var n := |random| - 1;
      var id := random[n];
      if id in infos && infos[id].randomPos == n {
        var infos' := infos - {id};
        assert infos'.Keys == infos.Keys - {id};
        RandomFilled(infos', random[..n]);
        if |infos| == |random| {
          forall i | 0 <= i < |random|
            ensures PlacedAt(infos, random[i], i)
          {
            assert i < n ==> PlacedAt(infos', random[..n][i], i);
          }
        }
      } else {
        RandomFilled(infos, random[..n]);
      }
    }
  }

  // ---------------------------------------------------------------- the first loop

  /** Per-entry conditions, collecting the tried ids and the reference counts. */
  method CheckEntries(man: AddrMan) returns (code: int, setTried: set<int>, mapNew: map<int, int>)
    requires man.Shaped()
    ensures code == 0 <==> EntriesChecked(man.mapInfo, man.mapAddr, man.vRandom)
    ensures code == 0 ==> setTried == TriedIds(man.mapInfo) && mapNew == RefCounts(man.mapInfo)
  {
    hide EntryChecked;
    setTried, mapNew := {}, map[];
    var todo := man.mapInfo.Keys;
    while todo != {}
      invariant todo <= man.mapInfo.Keys
      invariant forall n: int :: n in man.mapInfo && n !in todo ==>
        EntryChecked(man.mapInfo, man.mapAddr, man.vRandom, n)
      invariant forall n: int :: n in setTried <==> n in man.mapInfo && n !in todo && man.mapInfo[n].inTried
      invariant forall n: int :: n in mapNew <==> n in man.mapInfo && n !in todo && !man.mapInfo[n].inTried
      invariant forall n: int :: n in mapNew ==> mapNew[n] == man.mapInfo[n].refCount
    {
      var n: int := Pick(todo);
      var info := man.mapInfo[n];
      code := CheckEntry(man, n, info);
      if code != 0 {
        return;
      }
      if info.inTried {
        setTried := setTried + {n};
      } else {
        mapNew := mapNew[n := info.refCount];
      }
      todo := todo - {n};
    }
    code := 0;
    Collected(man.mapInfo, setTried, mapNew);
  }

  method Pick(s: set<int>) returns (x: int)
    requires s != {}
    ensures x in s
  {
    ghost var m := Member(s);
    x :| x in s;
  }

  lemma Collected(infos: Infos, setTried: set<int>, mapNew: map<int, int>)
    requires forall n: int :: n in setTried <==> n in infos && infos[n].inTried
    requires forall n: int :: n in mapNew <==> n in infos && !infos[n].inTried
    requires forall n: int :: n in mapNew ==> mapNew[n] == infos[n].refCount
    ensures setTried == TriedIds(infos) && mapNew == RefCounts(infos)
  {
    forall n: int
      ensures n in setTried <==> n in TriedIds(infos)
      ensures n in mapNew <==> n in RefCounts(infos)
      ensures n in mapNew ==> mapNew[n] == RefCounts(infos)[n]
    {
    }
    assert mapNew.Keys == RefCounts(infos).Keys;
  }

  method CheckEntry(man: AddrMan, n: int, info: Info) returns (code: int)
    requires n in man.mapInfo && info == man.mapInfo[n]
    ensures code == 0 <==> EntryChecked(man.mapInfo, man.mapAddr, man.vRandom, n)
  {
    if info.inTried {
      if info.lastSuccess == 0 {
        return -1;
      }
      if info.refCount != 0 {
        return -2;
      }
    } else {
      if info.refCount < 0 || info.refCount > NEW_BUCKETS_PER_ADDRESS {
        return -3;
      }
      if info.refCount == 0 {
        return -4;
      }
    }
    if Lookup(man.mapAddr, info.service.net) != n {
      return -5;
    }
    if info.randomPos < 0 || info.randomPos >= |man.vRandom| || man.vRandom[info.randomPos] != n {
      return -14;
    }
    if info.lastTry < 0 {
      return -6;
    }
    if info.lastSuccess < 0 {
      return -8;
    }
    return 0;
  }

  // ---------------------------------------------------------------- scanning a table

  /** The slots of an entry that the scan has passed. */
  ghost function PassedSlots(tab: Table, id: int, n: nat, i: nat): set<Slot> {
    set s | s in tab && tab[s] == id && Before(s, n, i)
  }

  lemma PassedAdvance(tab: Table, id: int, n: nat, i: nat)
    ensures
      var s := Slot(n, i);
      && s !in PassedSlots(tab, id, n, i)
      && PassedSlots(tab, id, n, i + 1)
         == PassedSlots(tab, id, n, i) + if s in tab && tab[s] == id then {s} else {}
  {
    var s := Slot(n, i);
    forall t
      ensures t in PassedSlots(tab, id, n, i + 1)
         <==> t in PassedSlots(tab, id, n, i) || (t == s && s in tab && tab[s] == id)
    {
    }
  }

  lemma PassedNextBucket(tab: Table, id: int, n: nat, size: nat)
    requires forall s :: s in tab ==> s.pos < size
    ensures PassedSlots(tab, id, n, size) == PassedSlots(tab, id, n + 1, 0)
  {
  }

  lemma PassedStart(tab: Table, id: int)
    ensures PassedSlots(tab, id, 0, 0) == {}
  {
  }

  lemma PassedEnd(tab: Table, id: int, n: nat)
    requires forall s :: s in tab ==> s.bucket < n
    ensures PassedSlots(tab, id, n, 0) == SlotsOf(tab, id)
  {
  }

  lemma TableBounds(a: array2<int>)
    ensures forall s :: s in TableOf(a) ==> s.bucket < a.Length0 && s.pos < a.Length1
  {
  }

  // ---------------------------------------------------------------- the tried table

  /** The slots passed are in order, and the ids still expected are those without one. */
  ghost predicate TriedPassed(st: State, setTried: set<int>, n: nat, i: nat) {
    && (forall s :: s in st.triedTab && Before(s, n, i) ==>
          TriedSlotOk(st.env, st.key, st.infos, s, st.triedTab[s]))
    && (forall id: int :: id in setTried <==>
          id in TriedIds(st.infos) && PassedSlots(st.triedTab, id, n, i) == {})
  }

  lemma TriedStart(st: State)
    ensures TriedPassed(st, TriedIds(st.infos), 0, 0)
  {
  }

  lemma TriedEmpty(st: State, setTried: set<int>, n: nat, i: nat)
    requires TriedPassed(st, setTried, n, i) && Slot(n, i) !in st.triedTab
    ensures TriedPassed(st, setTried, n, i + 1)
  {
    hide TriedSlotOk, TriedIds, PassedSlots;
    forall id: int
      ensures PassedSlots(st.triedTab, id, n, i + 1) == PassedSlots(st.triedTab, id, n, i)
    {
      PassedAdvance(st.triedTab, id, n, i);
    }
  }

  /** A slot in order is passed, and its entry no longer expected. */
  lemma TriedAdvance(st: State, setTried: set<int>, n: nat, i: nat)
    requires TriedPassed(st, setTried, n, i) && Slot(n, i) in st.triedTab
    requires TriedSlotOk(st.env, st.key, st.infos, Slot(n, i), st.triedTab[Slot(n, i)])
    ensures TriedPassed(st, setTried - {st.triedTab[Slot(n, i)]}, n, i + 1)
  {
    hide TriedSlotOk, TriedIds, PassedSlots;
    forall id: int
      ensures PassedSlots(st.triedTab, id, n, i + 1)
           == PassedSlots(st.triedTab, id, n, i) + if st.triedTab[Slot(n, i)] == id then {Slot(n, i)} else {}
    {
      PassedAdvance(st.triedTab, id, n, i);
    }
  }

  /** An entry in the tried table twice cannot be at its one position both times. */
  lemma TriedTwice(st: State, setTried: set<int>, n: nat, i: nat)
    requires TriedPassed(st, setTried, n, i) && Slot(n, i) in st.triedTab
    requires st.triedTab[Slot(n, i)] !in setTried
    ensures !TriedOk(st.env, st.key, st.infos, st.triedTab)
  {
    hide TriedSlot;
    var s := Slot(n, i);
    var id := st.triedTab[s];
    if id in TriedIds(st.infos) {
      var t :| t in PassedSlots(st.triedTab, id, n, i);
      assert TriedSlotOk(st.env, st.key, st.infos, t, id);
      assert !TriedSlotOk(st.env, st.key, st.infos, s, id);
    } else {
      assert !TriedSlotOk(st.env, st.key, st.infos, s, id);
    }
  }

  lemma NextTriedBucket(st: State, setTried: set<int>, n: nat)
    requires TriedPassed(st, setTried, n, BUCKET_SIZE)
    requires forall s :: s in st.triedTab ==> s.pos < BUCKET_SIZE
    ensures TriedPassed(st, setTried, n + 1, 0)
  {
    hide TriedSlotOk, TriedIds, PassedSlots;
    forall id: int
      ensures PassedSlots(st.triedTab, id, n, BUCKET_SIZE) == PassedSlots(st.triedTab, id, n + 1, 0)
    {
      PassedNextBucket(st.triedTab, id, n, BUCKET_SIZE);
    }
  }

  lemma TriedEnd(st: State, setTried: set<int>)
    requires TriedPassed(st, setTried, TRIED_BUCKET_COUNT, 0)
    requires forall s :: s in st.triedTab ==> s.bucket < TRIED_BUCKET_COUNT
    ensures setTried == {} <==> TriedOk(st.env, st.key, st.infos, st.triedTab)
  {
    hide TriedSlot;
    var tab := st.triedTab;
    forall s | s in tab
      ensures TriedSlotOk(st.env, st.key, st.infos, s, tab[s])
    {
    }
    forall id: int
      ensures id in setTried <==> id in TriedIds(st.infos) && SlotsOf(tab, id) == {}
    {
      PassedEnd(tab, id, TRIED_BUCKET_COUNT);
    }
    if setTried == {} {
      forall id | id in st.infos && st.infos[id].inTried
        ensures var s := TriedSlot(st.env, st.key, st.infos[id].service); s in tab && tab[s] == id
      {
        assert id in TriedIds(st.infos);
        var t :| t in SlotsOf(tab, id);
        assert TriedSlotOk(st.env, st.key, st.infos, t, id);
      }
    }
    if TriedOk(st.env, st.key, st.infos, tab) {
      forall id: int
        ensures id !in setTried
      {
        if id in TriedIds(st.infos) {
          assert TriedSlot(st.env, st.key, st.infos[id].service) in SlotsOf(tab, id);
        }
      }
    }
  }

  /** The second loop: passes and leaves no id exactly when the tried table is in order. */
  method CheckTried(man: AddrMan, ids: set<int>) returns (code: int, setTried: set<int>)
    requires man.Shaped() && ids == TriedIds(man.mapInfo)
    ensures code == 0 && setTried == {} <==>
      TriedOk(man.env, man.nKey, man.mapInfo, TableOf(man.vvTried))
  {
    hide TableOf, TriedPassed, TriedOk;
    ghost var st := man.Value();
    TriedStart(st);
    TableBounds(man.vvTried);
    setTried := ids;
    for n := 0 to TRIED_BUCKET_COUNT
      invariant TriedPassed(st, setTried, n, 0) && setTried <= ids
    {
      for i := 0 to BUCKET_SIZE
        invariant TriedPassed(st, setTried, n, i) && setTried <= ids
      {
        TableAt(man.vvTried, n, i);
        var id := man.vvTried[n, i];
        if id == -1 {
          TriedEmpty(st, setTried, n, i);
        } else {
          if id !in setTried {
            TriedTwice(st, setTried, n, i);
            return -11, setTried;
          }
          TriedSlotAt(st, n, i);
          if TriedBucket(man.env, man.nKey, man.mapInfo[id].service) != n {
            return -17, setTried;
          }
          if Position(man.env, man.nKey, false, n, man.mapInfo[id].service) != i {
            return -18, setTried;
          }
          TriedAdvance(st, setTried, n, i);
          setTried := setTried - {id};
        }
      }
      NextTriedBucket(st, setTried, n);
    }
    code := 0;
    TriedEnd(st, setTried);
  }

  lemma TriedSlotAt(st: State, n: nat, i: nat)
    requires Slot(n, i) in st.triedTab && st.triedTab[Slot(n, i)] in TriedIds(st.infos)
    ensures
      var id := st.triedTab[Slot(n, i)];
      && (TriedSlotOk(st.env, st.key, st.infos, Slot(n, i), id) <==>
            TriedBucket(st.env, st.key, st.infos[id].service) == n
            && Position(st.env, st.key, false, n, st.infos[id].service) == i)
      && (TriedOk(st.env, st.key, st.infos, st.triedTab) ==>
            TriedSlotOk(st.env, st.key, st.infos, Slot(n, i), id))
  {
    hide TriedBucket, Position;
  }

  // ---------------------------------------------------------------- the new table

  /** The slots passed are in order, and the references still expected are those not passed. */
  ghost predicate NewPassed(st: State, mapNew: map<int, int>, n: nat, i: nat) {
    && (forall s :: s in st.newTab && Before(s, n, i) ==>
          NewSlotOk(st.env, st.key, st.infos, s, st.newTab[s]))
    && (forall id: int :: id in RefCounts(st.infos) ==>
          |PassedSlots(st.newTab, id, n, i)| <= RefCounts(st.infos)[id])
    && (forall id: int :: id in mapNew <==>
          id in RefCounts(st.infos) && |PassedSlots(st.newTab, id, n, i)| < RefCounts(st.infos)[id])
    && (forall id: int :: id in mapNew ==>
          mapNew[id] == RefCounts(st.infos)[id] - |PassedSlots(st.newTab, id, n, i)|)
  }

  ghost predicate Positive(refs: map<int, int>) {
    forall id :: id in refs ==> refs[id] > 0
  }

  lemma NewStart(st: State)
    requires Positive(RefCounts(st.infos))
    ensures NewPassed(st, RefCounts(st.infos), 0, 0)
  {
    hide NewSlotOk, RefCounts, PassedSlots;
    forall id: int
      ensures PassedSlots(st.newTab, id, 0, 0) == {}
    {
      PassedStart(st.newTab, id);
    }
  }

  lemma NewEmpty(st: State, mapNew: map<int, int>, n: nat, i: nat)
    requires NewPassed(st, mapNew, n, i) && Slot(n, i) !in st.newTab
    ensures NewPassed(st, mapNew, n, i + 1)
  {
    hide NewSlotOk, RefCounts, PassedSlots;
    forall id: int
      ensures PassedSlots(st.newTab, id, n, i + 1) == PassedSlots(st.newTab, id, n, i)
    {
      PassedAdvance(st.newTab, id, n, i);
    }
  }

  /** Takes one expected reference of `id` off the books. */
  function CountDown(mapNew: map<int, int>, id: int): map<int, int> {
    if id !in mapNew then mapNew
    else if mapNew[id] - 1 == 0 then mapNew - {id}
    else mapNew[id := mapNew[id] - 1]
  }

  lemma NewAdvance(st: State, mapNew: map<int, int>, n: nat, i: nat)
    requires NewPassed(st, mapNew, n, i)
    requires Slot(n, i) in st.newTab && st.newTab[Slot(n, i)] in mapNew
    requires NewSlotOk(st.env, st.key, st.infos, Slot(n, i), st.newTab[Slot(n, i)])
    ensures NewPassed(st, CountDown(mapNew, st.newTab[Slot(n, i)]), n, i + 1)
  {
    hide NewSlotOk, RefCounts, PassedSlots;
    forall id: int
      ensures |PassedSlots(st.newTab, id, n, i + 1)|
           == |PassedSlots(st.newTab, id, n, i)| + if st.newTab[Slot(n, i)] == id then 1 else 0
    {
      PassedAdvance(st.newTab, id, n, i);
    }
  }

  /** An entry with no reference left to expect has more slots than its count says. */
  lemma NewUnexpected(st: State, mapNew: map<int, int>, n: nat, i: nat)
    requires NewPassed(st, mapNew, n, i)
    requires Slot(n, i) in st.newTab && st.newTab[Slot(n, i)] !in mapNew
    ensures !(NewOk(st.env, st.key, st.infos, st.newTab) && RefOk(st.infos, st.newTab))
  {
    hide NewSlot;
    var s := Slot(n, i);
    var id := st.newTab[s];
    if NewOk(st.env, st.key, st.infos, st.newTab) && RefOk(st.infos, st.newTab) {
      assert NewSlotOk(st.env, st.key, st.infos, s, id);
      PassedAdvance(st.newTab, id, n, i);
      SubsetSize(PassedSlots(st.newTab, id, n, i + 1), SlotsOf(st.newTab, id));
      assert false;
    }
  }

  lemma NextNewBucket(st: State, mapNew: map<int, int>, n: nat)
    requires NewPassed(st, mapNew, n, BUCKET_SIZE)
    requires forall s :: s in st.newTab ==> s.pos < BUCKET_SIZE
    ensures NewPassed(st, mapNew, n + 1, 0)
  {
    hide NewSlotOk, RefCounts, PassedSlots;
    forall id: int
      ensures PassedSlots(st.newTab, id, n, BUCKET_SIZE) == PassedSlots(st.newTab, id, n + 1, 0)
    {
      PassedNextBucket(st.newTab, id, n, BUCKET_SIZE);
    }
  }

  ghost predicate EntriesSound(infos: Infos) {
    forall id :: id in infos ==> EntryOk(infos[id], false)
  }

  lemma NewEnd(st: State, mapNew: map<int, int>)
    requires NewPassed(st, mapNew, NEW_BUCKET_COUNT, 0) && EntriesSound(st.infos)
    requires forall s :: s in st.newTab ==> s.bucket < NEW_BUCKET_COUNT
    ensures mapNew == map[] <==>
      NewOk(st.env, st.key, st.infos, st.newTab) && RefOk(st.infos, st.newTab)
  {
    hide NewSlotOk, PassedSlots, SlotsOf;
    assert NewOk(st.env, st.key, st.infos, st.newTab);
    forall id: int
      ensures PassedSlots(st.newTab, id, NEW_BUCKET_COUNT, 0) == SlotsOf(st.newTab, id)
    {
      PassedEnd(st.newTab, id, NEW_BUCKET_COUNT);
    }
    if mapNew == map[] {
      forall id | id in st.infos
        ensures st.infos[id].refCount == |SlotsOf(st.newTab, id)|
      {
        assert EntryOk(st.infos[id], false);
        if st.infos[id].inTried {
          NoNewSlots(st, id);
        } else {
          assert id in RefCounts(st.infos) && id !in mapNew;
        }
      }
    } else {
      assert mapNew.Keys != {};
      var id := Member(mapNew.Keys);
      assert id in RefCounts(st.infos);
    }
  }

  lemma NoNewSlots(st: State, id: int)
    requires NewOk(st.env, st.key, st.infos, st.newTab) && id in st.infos && st.infos[id].inTried
    ensures SlotsOf(st.newTab, id) == {}
  {
    forall s | s in st.newTab
      ensures st.newTab[s] != id
    {
      assert NewSlotOk(st.env, st.key, st.infos, s, st.newTab[s]);
    }
  }

  lemma NewSlotAt(st: State, n: nat, i: nat)
    requires n < NEW_BUCKET_COUNT
    requires Slot(n, i) in st.newTab && st.newTab[Slot(n, i)] in RefCounts(st.infos)
    ensures
      var id := st.newTab[Slot(n, i)];
      && (NewSlotOk(st.env, st.key, st.infos, Slot(n, i), id) <==>
            Position(st.env, st.key, true, n, st.infos[id].service) == i)
      && (NewOk(st.env, st.key, st.infos, st.newTab) ==>
            NewSlotOk(st.env, st.key, st.infos, Slot(n, i), id))
  {
    hide Position;
  }

  /** The third loop: passes and leaves no reference exactly when the new table is in order. */
  method CheckNew(man: AddrMan, refs: map<int, int>) returns (code: int, mapNew: map<int, int>)
    requires man.Shaped() && refs == RefCounts(man.mapInfo) && EntriesSound(man.mapInfo)
    ensures code == 0 && mapNew == map[] <==>
      && NewOk(man.env, man.nKey, man.mapInfo, TableOf(man.vvNew))
      && RefOk(man.mapInfo, TableOf(man.vvNew))
  {
    hide TableOf, NewPassed, NewOk, RefOk;
    ghost var st := man.Value();
    NewStart(st);
    TableBounds(man.vvNew);
    mapNew := refs;
    for n := 0 to NEW_BUCKET_COUNT
      invariant NewPassed(st, mapNew, n, 0) && mapNew.Keys <= refs.Keys
    {
      for i := 0 to BUCKET_SIZE
        invariant NewPassed(st, mapNew, n, i) && mapNew.Keys <= refs.Keys
      {
        TableAt(man.vvNew, n, i);
        var id := man.vvNew[n, i];
        if id == -1 {
          NewEmpty(st, mapNew, n, i);
        } else {
          if id !in mapNew {
            NewUnexpected(st, mapNew, n, i);
            return -12, mapNew;
          }
          NewSlotAt(st, n, i);
          if Position(man.env, man.nKey, true, n, man.mapInfo[id].service) != i {
            return -19, mapNew;
          }
          NewAdvance(st, mapNew, n, i);
          mapNew := if mapNew[id] - 1 == 0 then mapNew - {id} else mapNew[id := mapNew[id] - 1];
        }
      }
      NextNewBucket(st, mapNew, n);
    }
    code := 0;
    NewEnd(st, mapNew);
  }

  // ---------------------------------------------------------------- Check_

  lemma CountsAgree(st: State)
    requires EntriesChecked(st.infos, st.addrs, st.random)
    requires CountOk(st.infos, st.nTried, st.nNew, 0) && |st.random| == st.nTried + st.nNew
    ensures RandomOk(st.infos, st.random)
  {
    hide RandomOk, TriedIds, NewIds, EntryOk;
    forall id | id in st.infos
      ensures 0 <= st.infos[id].randomPos < |st.random| && st.random[st.infos[id].randomPos] == id
    {
      assert EntryChecked(st.infos, st.addrs, st.random, id);
    }
    IdsSum(st.infos);
    RandomFilled(st.infos, st.random);
  }

  lemma EntriesAreSound(infos: Infos, addrs: map<NetAddr, int>, random: seq<int>)
    requires EntriesChecked(infos, addrs, random)
    ensures EntriesSound(infos)
  {
    hide EntryOk;
    forall id | id in infos
      ensures EntryOk(infos[id], false)
    {
      assert EntryChecked(infos, addrs, random, id);
    }
  }

  /** Check_ returns 0 exactly on the managers that are consistent in all it looks at. */
  method Check_(man: AddrMan) returns (code: int)
    requires man.Shaped()
    ensures code == 0 <==> Checked(man.Value())
    ensures Inv(man.Value()) ==> code == 0
  {
    hide RandomOk, NewOk, RefOk, TriedOk, EntriesChecked, TableOf, Inv, TriedIds, NewIds, RefCounts;
    ghost var st := man.Value();
    CheckedIff(st);
    RefCountsSize(man.mapInfo);
    if |man.vRandom| != man.nTried + man.nNew {
      if Checked(st) {
        SizeIsSum(st);
      }
      return -7;
    }
    var setTried, mapNew;
    code, setTried, mapNew := CheckEntries(man);
    if code != 0 {
      return;
    }
    if |setTried| != man.nTried {
      return -9;
    }
    if |mapNew| != man.nNew {
      return -10;
    }
    CountsAgree(st);
    EntriesAreSound(man.mapInfo, man.mapAddr, man.vRandom);
    code, setTried := CheckTried(man, setTried);
    if code != 0 {
      return;
    }
    code, mapNew := CheckNew(man, mapNew);
    if code != 0 {
      return;
    }
    if |setTried| != 0 {
      return -13;
    }
    if |mapNew| != 0 {
      return -15;
    }
    if man.nKey == 0 {
      return -16;
    }
    return 0;
  }

  lemma RefCountsSize(infos: Infos)
    ensures |RefCounts(infos)| == |NewIds(infos)|
  {
    forall id: int
      ensures id in RefCounts(infos).Keys <==> id in NewIds(infos)
    {
    }
    assert RefCounts(infos).Keys == NewIds(infos);
  }
}
