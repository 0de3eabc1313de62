/** GetAddr_: a random sample, without repetition, of the entries worth announcing. */
module AddrSampling {
  import opened AddrTables
  import Ops = AddrOps
  import opened AddrManager

  const GETADDR_MAX_PCT: nat := 23
  const GETADDR_MAX: nat := 2500

  function AddressOf(info: Info): Address {
    Address(info.service, info.services, info.time)
  }

  ghost predicate Decent(infos: Infos, id: int, now: int) {
    id in infos && !Ops.IsTerrible(infos[id], now)
  }

  /** The decent ones among `ids`, in order. */
  ghost function Sample(infos: Infos, ids: seq<int>, now: int): (r: seq<int>)
    ensures |r| <= |ids|
    ensures forall k :: 0 <= k < |r| ==> r[k] in ids && Decent(infos, r[k], now)
  {
    if ids == [] then [] else
      var last := ids[|ids| - 1];
      Sample(infos, ids[..|ids| - 1], now) + if Decent(infos, last, now) then [last] else []
  }

  lemma {:induction false} SampleComplete(infos: Infos, ids: seq<int>, now: int, i: nat)
    requires i < |ids| && Decent(infos, ids[i], now)
    ensures ids[i] in Sample(infos, ids, now)
  {
    var init := ids[..|ids| - 1];
    if i < |ids| - 1 {
      SampleComplete(infos, init, now, i);
      assert ids[i] == init[i] && init[i] in Sample(infos, init, now);
    }
  }

  predicate Distinct(s: seq<int>) {
    forall i, j :: 0 <= i < j < |s| ==> s[i] != s[j]
  }

  lemma {:induction false} SampleDistinct(infos: Infos, ids: seq<int>, now: int)
    requires Distinct(ids)
    ensures Distinct(Sample(infos, ids, now))
  {
    if ids != [] {
      var init, last := ids[..|ids| - 1], ids[|ids| - 1];
      SampleDistinct(infos, init, now);
      var r := Sample(infos, init, now);
      forall k | 0 <= k < |r|
        ensures r[k] != last
      {
        assert r[k] in init;
        var m :| 0 <= m < |init| && init[m] == r[k];
        assert ids[m] == init[m];
      }
      var all := Sample(infos, ids, now);
      forall i, j | 0 <= i < j < |all|
        ensures all[i] != all[j]
      {
        assert all[i] == r[i];
        if j < |r| {
          assert all[j] == r[j];
          assert r[i] != r[j];
        } else {
          assert all[j] == last;
        }
      }
    }
  }

  /** The list of ids is free of repetitions. */
  lemma RandomDistinct(infos: Infos, random: seq<int>)
    requires RandomOk(infos, random)
    ensures Distinct(random)
  {
    forall i, j | 0 <= i < j < |random|
      ensures random[i] != random[j]
    {
      assert PlacedAt(infos, random[i], i) && PlacedAt(infos, random[j], j);
    }
  }

  ghost predicate AllKept(infos: Infos, infos': Infos) {
    && (forall x :: x in infos' ==> x in infos)
    && forall x {:trigger Ops.Kept(infos, infos', x)} :: x in infos ==> Ops.Kept(infos, infos', x)
  }

  lemma KeptDecent(infos: Infos, infos': Infos, id: int, now: int)
    requires AllKept(infos, infos')
    ensures Decent(infos', id, now) == Decent(infos, id, now)
    ensures id in infos' ==> AddressOf(infos'[id]) == AddressOf(infos[id])
  {
    assert id in infos ==> Ops.Kept(infos, infos', id);
  }

  lemma SwapAllKept(infos: Infos, st: State, i: nat, j: nat)
    requires RandomOk(st.infos, st.random) && AllKept(infos, st.infos)
    requires i < |st.random| && j < |st.random|
    ensures PlacedAt(st.infos, st.random[i], i) && PlacedAt(st.infos, st.random[j], j)
    ensures AllKept(infos, SwapRandom(st, i, j).infos)
  {
    assert PlacedAt(st.infos, st.random[i], i) && PlacedAt(st.infos, st.random[j], j);
    if i != j {
      var infos' := Swapped(st.infos, st.random, i, j);
      forall x | x in infos
        ensures Ops.Kept(infos, infos', x)
      {
        assert Ops.Kept(infos, st.infos, x);
        Ops.SwapKeeps(st.infos, st.random, i, j, x);
      }
      forall x | x in infos'
        ensures x in infos
      {
        var id1, id2 := st.random[i], st.random[j];
        assert x == id1 || x == id2 || x in st.infos;
      }
    }
  }

  /** Moves a random not yet drawn entry to place `n` of the list. */
  method Draw(man: AddrMan, n: nat, nRndPos: nat, now: int, ghost infos: Infos) returns (id: int, ai: Info)
    requires man.Valid() && AllKept(infos, man.mapInfo) && n <= nRndPos < |man.vRandom|
    modifies man
    ensures man.Valid() && AllKept(infos, man.mapInfo)
    ensures man.Value() == old(man.Value()).(infos := man.mapInfo, random := man.vRandom)
    ensures |man.vRandom| == |old(man.vRandom)| && man.vRandom[..n] == old(man.vRandom)[..n]
    ensures id == man.vRandom[n] && id in infos && AddressOf(ai) == AddressOf(infos[id])
    ensures Decent(infos, id, now) == !Ops.IsTerrible(ai, now)
  {
    hide AddrOk, NewOk, RefOk, TriedOk, EntriesOk, CountOk, TableOf, Ops.IsTerrible, Swapped, AllKept,
         RandomOk;
    SwapLoose(man.Value(), n, nRndPos, {}, 0);
    SwapAllKept(infos, man.Value(), n, nRndPos);
    man.SwapRandom(n, nRndPos);
    InRandom(man.mapInfo, man.vRandom, n);
    id := man.vRandom[n];
    KeptDecent(infos, man.mapInfo, id, now);
    AllKeptIn(infos, man.mapInfo, id);
    ai := man.mapInfo[id];
  }

  lemma AllKeptIn(infos: Infos, infos': Infos, id: int)
    requires AllKept(infos, infos') && id in infos'
    ensures id in infos
  {
  }

  /**
   `rnd(n)` is the n-th random number drawn. `ids` names the entries returned: all decent, no
   two the same, at most 23% of the known ones; and if fewer than allowed, all decent ones.
   */
  method GetAddr_(man: AddrMan, now: int, rnd: nat -> nat) returns (vAddr: seq<Address>, ghost ids: seq<int>)
    requires man.Valid()
    modifies man
    ensures man.Valid() && AllKept(old(man.mapInfo), man.mapInfo)
    ensures man.Value() == old(man.Value()).(infos := man.mapInfo, random := man.vRandom)
    ensures |vAddr| == |ids|
    ensures |vAddr| <= GETADDR_MAX && |vAddr| * 100 <= GETADDR_MAX_PCT * |old(man.vRandom)|
    ensures forall k :: 0 <= k < |ids| ==>
      Decent(man.mapInfo, ids[k], now) && vAddr[k] == AddressOf(man.mapInfo[ids[k]])
    ensures Distinct(ids)
    ensures |vAddr| < GETADDR_MAX && |vAddr| < GETADDR_MAX_PCT * |old(man.vRandom)| / 100 ==>
      forall id :: Decent(man.mapInfo, id, now) ==> id in ids
  {
    hide AddrOk, NewOk, RefOk, TriedOk, EntriesOk, CountOk, TableOf, Ops.IsTerrible, Swapped, AllKept,
         RandomOk;
    ghost var infos, before := man.mapInfo, man.Value();
    var nNodes := GETADDR_MAX_PCT * |man.vRandom| / 100;
    if nNodes > GETADDR_MAX {
      nNodes := GETADDR_MAX;
    }
    vAddr, ids := [], [];
    AllKeptSame(infos);
    var n := 0;
    while n < |man.vRandom| && |vAddr| < nNodes
      invariant 0 <= n <= |man.vRandom| == |before.random|
      invariant man.Valid() && AllKept(infos, man.mapInfo)
      invariant man.Value() == before.(infos := man.mapInfo, random := man.vRandom)
      invariant ids == Sample(infos, man.vRandom[..n], now)
      invariant |vAddr| == |ids| <= nNodes
      invariant forall k :: 0 <= k < |ids| ==> vAddr[k] == AddressOf(infos[ids[k]])
    {
      var nRndPos := rnd(n) % (|man.vRandom| - n) + n;
      ghost var done := man.vRandom[..n];
      var id, ai := Draw(man, n, nRndPos, now, infos);
      assert man.vRandom[..n + 1] == done + [id];
      assert (done + [id])[..n] == done;
      if !Ops.IsTerrible(ai, now) {
        vAddr := vAddr + [AddressOf(ai)];
        ids := ids + [id];
      }
      n := n + 1;
    }
    Summary(infos, man.mapInfo, man.vRandom, n, now);
    forall k | 0 <= k < |ids|
      ensures Decent(man.mapInfo, ids[k], now) && vAddr[k] == AddressOf(man.mapInfo[ids[k]])
    {
      KeptDecent(infos, man.mapInfo, ids[k], now);
    }
  }

  lemma AllKeptSame(infos: Infos)
    ensures AllKept(infos, infos)
  {
  }

  lemma InRandom(infos: Infos, random: seq<int>, n: nat)
    requires RandomOk(infos, random) && n < |random|
    ensures random[n] in infos
  {
    assert PlacedAt(infos, random[n], n);
  }

  lemma Summary(infos: Infos, infos': Infos, random: seq<int>, n: nat, now: int)
    requires RandomOk(infos', random) && AllKept(infos, infos') && n <= |random|
    ensures
      var ids := Sample(infos, random[..n], now);
      && Distinct(ids)
      && (n == |random| ==> forall id :: Decent(infos', id, now) ==> id in ids)
  {
    hide AllKept;
    RandomDistinct(infos', random);
    SampleDistinct(infos, random[..n], now);
    if n == |random| {
      assert random[..n] == random;
      forall id | Decent(infos', id, now)
        ensures id in Sample(infos, random, now)
      {
        KeptDecent(infos, infos', id, now);
        SampleComplete(infos, random, now, infos'[id].randomPos);
      }
    }
  }
}
