/** The receiver's partially downloaded block, and the whole exchange with an honest sender. */
module CompactDownload {
  import opened BlockRequests
  import opened CompactBlocks
  import opened CompactScan
  import opened Options

  predicate Rejected(cb: Compact) {
    cb.headerIsNull || TxCount(cb) == 0 || TxCount(cb) > MAX_BLOCK_TXS || !Placeable(cb)
  }

  /** Which announcements are invalid, in numbers. */
  lemma RejectedIff(cb: Compact)
    ensures Rejected(cb) <==>
      || cb.headerIsNull || |cb.shortids| + |cb.prefilled| == 0 || |cb.shortids| + |cb.prefilled| > 150000
      || exists i :: 0 <= i < |cb.prefilled|
                     && (|| cb.prefilled[i].tx.isNull || Position(cb.prefilled, i) > 65535
                         || Position(cb.prefilled, i) >= |cb.shortids| + |cb.prefilled|)
  {
    hide Placeable, Position;
    PlaceableIff(cb);
  }

  /** Each short id leads to its own slot. */
  ghost predicate OwnersOk(cb: Compact, owners: map<nat, nat>)
    requires Placeable(cb)
  {
    && (forall i :: 0 <= i < |cb.shortids| ==>
          cb.shortids[i] in owners && owners[cb.shortids[i]] == SlotOf(cb, i))
    && (forall id :: id in owners ==> exists i :: 0 <= i < |cb.shortids| && cb.shortids[i] == id)
  }

  class PartiallyDownloadedBlock {
    var headerIsNull: bool
    var txn_available: Slots
    var prefilled_count: nat
    var mempool_count: nat

    constructor ()
      ensures headerIsNull && txn_available == [] && mempool_count == 0
    {
      headerIsNull, txn_available, prefilled_count, mempool_count := true, [], 0, 0;
    }

    /** Puts the prefilled transactions in their slots. */
    method PlacePrefilled(cb: Compact) returns (ok: bool)
      requires TxCount(cb) <= U16
      modifies this`txn_available, this`prefilled_count
      ensures ok == Placeable(cb)
      ensures ok ==> txn_available == Prefill(cb, |cb.prefilled|) && prefilled_count == |cb.prefilled|
    {
      txn_available := seq(TxCount(cb), p => None);
      ghost var before: Slots := txn_available;
      var lastprefilledindex := -1;
      for i := 0 to |cb.prefilled|
        invariant forall j :: 0 <= j < i ==> PlaceOk(cb, j)
        invariant lastprefilledindex == if i == 0 then -1 else Position(cb.prefilled, i - 1)
        invariant |txn_available| == TxCount(cb)
        invariant Placeable(cb) ==> txn_available == Prefill(cb, i)
      {
        if cb.prefilled[i].tx.isNull {
          assert !PlaceOk(cb, i);
          return false;
        }
        lastprefilledindex := lastprefilledindex + cb.prefilled[i].index + 1;
        if lastprefilledindex > UINT16_MAX {
          assert !PlaceOk(cb, i);
          return false;
        }
        if lastprefilledindex > |cb.shortids| + i {
          assert !PlaceOk(cb, i);
          return false;
        }
        txn_available := txn_available[lastprefilledindex := Some(cb.prefilled[i].tx)];
      }
      prefilled_count := |cb.prefilled|;
      ok := true;
    }

    /** The offset at which the next free slot for short id `i` is found. */
    method NextFree(i: nat, offset: nat) returns (index_offset: nat)
      requires i + offset < |txn_available| <= U16
      requires |Free(txn_available, i + offset)| == i < |Free(txn_available, |txn_available|)|
      ensures i + index_offset < |txn_available| && txn_available[i + index_offset].None?
      ensures |Free(txn_available, i + index_offset)| == i
    {
      hide Free;
      index_offset := offset;
      while txn_available[i + index_offset].Some?
        invariant i + index_offset < |txn_available| && |Free(txn_available, i + index_offset)| == i
        decreases |txn_available| - index_offset
      {
        FreeSkip(txn_available, i + index_offset);
        BelowAll(txn_available, i + index_offset + 1);
        index_offset := (index_offset + 1) % U16;
      }
    }

    /** Assigns the i-th short id to the i-th free slot; slot numbers have 16 bits. */
    method MapShortIds(cb: Compact, crowded: nat -> bool) returns (ok: bool, owners: map<nat, nat>)
      requires Placeable(cb) && txn_available == Prefill(cb, |cb.prefilled|) && TxCount(cb) <= U16
      ensures ok <==> DistinctIds(cb.shortids) && forall i :: 0 <= i < |cb.shortids| ==> !crowded(i)
      ensures ok ==> OwnersOk(cb, owners) && |owners| == |cb.shortids|
    {
      hide Prefill, Placeable, Free, DistinctIds, OwnersOk;
      var n := TxCount(cb);
      PrefillFree(cb, |cb.prefilled|);
      owners := map[];
      var index_offset: nat := 0;
      NothingOwned(cb);
      for i := 0 to |cb.shortids|
        invariant i + index_offset <= n && |Free(txn_available, i + index_offset)| == i
        invariant forall j :: 0 <= j < i ==> !crowded(j)
        invariant Assigned(cb, owners, i)
      {
        BelowAll(txn_available, i + index_offset);
        index_offset := NextFree(i, index_offset);
        var slot := (i + index_offset) % U16;
        FreeIndex(txn_available, slot, n);
        SlotIs(cb, i);
        AssignNext(cb, owners, i);
        owners := owners[cb.shortids[i] := slot];
        if crowded(i) {
          return false, owners;
        }
        FreeNext(txn_available, slot);
      }
      AssignedAll(cb, owners);
      ok := |owners| == |cb.shortids|;
    }

    /**
     Looks through the memory pool; a second match empties the slot for good. Returns how many
     transactions were looked at.
     */
    method ScanPool(cb: Compact, short: nat -> nat, owners: map<nat, nat>, pool: seq<Candidate>,
                    haveIn: seq<bool>) returns (have: seq<bool>, ghost m: nat)
      requires Placeable(cb) && DistinctIds(cb.shortids) && OwnersOk(cb, owners) && |owners| == |cb.shortids|
      requires Scanning(cb, short, [], [], txn_available, haveIn, mempool_count)
      modifies this`txn_available, this`mempool_count
      ensures m <= |pool| && PoolStop(cb, short, pool, m)
      ensures Scanning(cb, short, pool[..m], [], txn_available, have, mempool_count)
    {
      hide Scanning, OwnersOk, Placeable, DistinctIds, AllFound;
      have, m := haveIn, 0;
      assert pool[..0] == [];
      for i := 0 to |pool|
        invariant m == i
        invariant Scanning(cb, short, pool[..i], [], txn_available, have, mempool_count)
        invariant forall j: nat :: 0 < j <= i ==> !AllFound(cb, short, pool[..j], [])
      {
        assert pool[..i + 1] == pool[..i] + [pool[i]];
        var shortid := short(pool[i].hash);
        if shortid in owners {
          ghost var owner := OwnerOf(cb, owners, shortid);
          ScanningShape(cb, short, pool[..i], [], txn_available, have, mempool_count);
          PoolStep(cb, short, pool[..i], pool[i], txn_available, have, mempool_count, owner);
          var p := owners[shortid];
          ghost var was, h, v := txn_available, have, if have[p] then None else Some(pool[i].tx);
          if !have[p] {
            txn_available := txn_available[p := Some(pool[i].tx)];
            have := have[p := true];
            mempool_count := mempool_count + 1;
          } else if txn_available[p].Some? {
            CountRoom(cb, short, pool[..i + 1], [], was[p := v], h[p := true], mempool_count - 1);
            txn_available := txn_available[p := None];
            mempool_count := mempool_count - 1;
          }
          assert txn_available == was[p := v] && have == h[p := true];
        } else {
          PoolIgnored(cb, short, owners, pool[..i], pool[i], txn_available, have, mempool_count);
        }
        m := i + 1;
        CountFull(cb, short, pool[..i + 1], [], txn_available, have, mempool_count);
        if mempool_count == |owners| {
          break;
        }
      }
    }

    /** Looks through the extra transactions; the same one seen again does no harm. */
    method ScanExtra(cb: Compact, short: nat -> nat, owners: map<nat, nat>, extra: seq<Candidate>,
                     haveIn: seq<bool>, ghost a: seq<Candidate>) returns (ghost k: nat)
      requires Placeable(cb) && DistinctIds(cb.shortids) && OwnersOk(cb, owners) && |owners| == |cb.shortids|
      requires Scanning(cb, short, a, [], txn_available, haveIn, mempool_count)
      modifies this`txn_available, this`mempool_count
      ensures ExtraStop(cb, short, a, extra, k) && Scanned(cb, short, a, extra[..k], txn_available)
      ensures mempool_count + |Free(txn_available, |txn_available|)| == |cb.shortids|
    {
      hide Scanning, OwnersOk, Placeable, DistinctIds, AllFound, Scanned;
      var have := haveIn;
      k := 0;
      assert extra[..0] == [];
      for i := 0 to |extra|
        invariant k == i
        invariant Scanning(cb, short, a, extra[..i], txn_available, have, mempool_count)
        invariant forall j: nat :: 0 < j <= i ==> !AllFound(cb, short, a, extra[..j])
      {
        assert extra[..i + 1] == extra[..i] + [extra[i]];
        var shortid := short(extra[i].hash);
        if shortid in owners {
          ghost var owner := OwnerOf(cb, owners, shortid);
          ScanningShape(cb, short, a, extra[..i], txn_available, have, mempool_count);
          ExtraStep(cb, short, a, extra[..i], extra[i], txn_available, have, mempool_count, owner);
          var p := owners[shortid];
          ghost var was, h := txn_available, have;
          if !have[p] {
            txn_available := txn_available[p := Some(extra[i].tx)];
            have := have[p := true];
            mempool_count := mempool_count + 1;
          } else if txn_available[p].Some? && txn_available[p].value.witnessHash != extra[i].tx.witnessHash {
            CountRoom(cb, short, a, extra[..i + 1], was[p := None], h[p := true], mempool_count - 1);
            txn_available := txn_available[p := None];
            mempool_count := mempool_count - 1;
          }
          assert have == h[p := true];
          assert was[p] == txn_available[p] ==> was[p := txn_available[p]] == txn_available;
        } else {
          ExtraIgnored(cb, short, owners, a, extra[..i], extra[i], txn_available, have, mempool_count);
        }
        k := i + 1;
        CountFull(cb, short, a, extra[..i + 1], txn_available, have, mempool_count);
        if mempool_count == |owners| {
          break;
        }
      }
      ScanningShape(cb, short, a, extra[..k], txn_available, have, mempool_count);
    }

    /**
     Takes in a compact block. `crowded(i)` is whether the hash bucket of the i-th short id is
     overfull. Messages announcing up to 65536 transactions, or too many, are covered. The
     scans look at `pool[..m]` and `extra[..k]`.
     */
    method InitData(cb: Compact, short: nat -> nat, pool: seq<Candidate>, extra: seq<Candidate>,
                    crowded: nat -> bool) returns (status: Status, ghost m: nat, ghost k: nat)
      requires headerIsNull && txn_available == [] && mempool_count == 0
      requires TxCount(cb) <= U16 || TxCount(cb) > MAX_BLOCK_TXS
      modifies this
      ensures status == Invalid <==> Rejected(cb)
      ensures status == Failed <==>
        !Rejected(cb) && !(DistinctIds(cb.shortids) && forall i :: 0 <= i < |cb.shortids| ==> !crowded(i))
      ensures status != CheckBlockFailed
      ensures status == Ok ==>
        && !headerIsNull && prefilled_count == |cb.prefilled|
        && Initialized(cb, short, pool, extra, m, k, txn_available)
        && mempool_count + |Free(txn_available, |txn_available|)| == |cb.shortids|
    {
      hide Placeable, Prefill, DistinctIds, OwnersOk, Scanning, Scanned, PoolStop, ExtraStop;
      m, k := 0, 0;
      if cb.headerIsNull || (cb.shortids == [] && cb.prefilled == []) {
        return Invalid, m, k;
      }
      if |cb.shortids| + |cb.prefilled| > MAX_BLOCK_WEIGHT / MIN_SERIALIZABLE_TRANSACTION_WEIGHT {
        return Invalid, m, k;
      }
      headerIsNull := cb.headerIsNull;
      var placed := PlacePrefilled(cb);
      if !placed {
        return Invalid, m, k;
      }
      var ok, owners := MapShortIds(cb, crowded);
      if !ok {
        return Failed, m, k;
      }
      var have := seq(|txn_available|, p => false);
      ScanningStart(cb, short, have);
      have, m := ScanPool(cb, short, owners, pool, have);
      k := ScanExtra(cb, short, owners, extra, have, pool[..m]);
      return Ok, m, k;
    }

    predicate IsTxAvailable(index: nat)
      requires !headerIsNull && index < |txn_available|
      reads this
    {
      txn_available[index].Some?
    }

    /** Completes the block; `checks` is the verdict of CheckBlock, which is not modelled here. */
    method FillBlock(vtx_missing: seq<Tx>, checks: seq<Tx> -> Status) returns (status: Status, vtx: seq<Tx>)
      requires !headerIsNull
      modifies this
      ensures
        var slots := old(txn_available);
        var filled := CompactBlocks.Fill(slots, vtx_missing, |slots|);
        if filled.None? || |Free(slots, |slots|)| != |vtx_missing| then status == Invalid
        else vtx == filled.value && status == checks(vtx)
      ensures CompactBlocks.Fill(old(txn_available), vtx_missing, |old(txn_available)|).Some? ==>
        headerIsNull && txn_available == []
    {
      vtx := [];
      var tx_missing_offset := 0;
      for i := 0 to |txn_available|
        invariant unchanged(this)
        invariant CompactBlocks.Fill(txn_available, vtx_missing, i) == Some(vtx)
        invariant tx_missing_offset == |Free(txn_available, i)|
      {
        if txn_available[i].None? {
          if |vtx_missing| <= tx_missing_offset {
            assert CompactBlocks.Fill(txn_available, vtx_missing, i + 1) == None;
            FillStuck(txn_available, vtx_missing, i + 1, |txn_available|);
            return Invalid, vtx;
          }
          vtx := vtx + [vtx_missing[tx_missing_offset]];
          tx_missing_offset := tx_missing_offset + 1;
        } else {
          vtx := vtx + [txn_available[i].value];
        }
      }
      headerIsNull := true;
      txn_available := [];
      if |vtx_missing| != tx_missing_offset {
        return Invalid, vtx;
      }
      status := checks(vtx);
    }
  }

  lemma BelowAll(slots: Slots, p: nat)
    requires p <= |slots| && |Free(slots, p)| < |Free(slots, |slots|)|
    ensures p < |slots|
  {
  }

  lemma FreeSkip(slots: Slots, p: nat)
    requires p < |slots| && slots[p].Some?
    ensures |Free(slots, p + 1)| == |Free(slots, p)|
  {
  }

  lemma FreeNext(slots: Slots, p: nat)
    requires p < |slots| && slots[p].None?
    ensures |Free(slots, p + 1)| == |Free(slots, p)| + 1
  {
  }

  function IdSet(ids: seq<nat>, i: nat): set<nat>
    requires i <= |ids|
  {
    if i == 0 then {} else IdSet(ids, i - 1) + {ids[i - 1]}
  }

  lemma {:induction false} IdSetHas(ids: seq<nat>, i: nat, x: nat)
    requires i <= |ids|
    ensures x in IdSet(ids, i) <==> x in ids[..i]
  {
    if i > 0 {
      IdSetHas(ids, i - 1, x);
      assert ids[..i] == ids[..i - 1] + [ids[i - 1]];
    }
  }

  /** A set of ids is as large as the list exactly when none is repeated. */
  lemma {:induction false} IdSetSize(ids: seq<nat>, i: nat)
    requires i <= |ids|
    ensures |IdSet(ids, i)| <= i && (|IdSet(ids, i)| == i <==> DistinctIds(ids[..i]))
  {
    if i > 0 {
      IdSetSize(ids, i - 1);
      IdSetHas(ids, i - 1, ids[i - 1]);
      DistinctNext(ids, i - 1);
    }
  }

  lemma DistinctNext(ids: seq<nat>, i: nat)
    requires i < |ids|
    ensures DistinctIds(ids[..i + 1]) <==> DistinctIds(ids[..i]) && ids[i] !in ids[..i]
  {
    var a, b := ids[..i + 1], ids[..i];
    assert a == b + [ids[i]];
    if ids[i] in b {
      var j :| 0 <= j < |b| && b[j] == ids[i];
      assert a[j] == a[i];
    }
    if DistinctIds(a) {
      forall j, k | 0 <= j < k < |b|
        ensures b[j] != b[k]
      {
        assert a[j] == b[j] && a[k] == b[k];
      }
    }
  }

  /** The first `i` short ids are in the map, with their slots as long as none is repeated. */
  ghost predicate Assigned(cb: Compact, owners: map<nat, nat>, i: nat)
    requires Placeable(cb) && i <= |cb.shortids|
  {
    && owners.Keys == IdSet(cb.shortids, i)
    && (DistinctIds(cb.shortids[..i]) ==> forall j :: 0 <= j < i ==> Owns(cb, owners, j))
  }

  ghost predicate Owns(cb: Compact, owners: map<nat, nat>, j: nat)
    requires Placeable(cb) && j < |cb.shortids|
  {
    cb.shortids[j] in owners && owners[cb.shortids[j]] == SlotOf(cb, j)
  }

  lemma NothingOwned(cb: Compact)
    requires Placeable(cb)
    ensures Assigned(cb, map[], 0)
  {
  }

  lemma AssignNext(cb: Compact, owners: map<nat, nat>, i: nat)
    requires Placeable(cb) && i < |cb.shortids| && Assigned(cb, owners, i)
    ensures Assigned(cb, owners[cb.shortids[i] := SlotOf(cb, i)], i + 1)
  {
    hide SlotOf, Placeable, DistinctIds;
    var ids, owners' := cb.shortids, owners[cb.shortids[i] := SlotOf(cb, i)];
    DistinctNext(ids, i);
    assert owners'.Keys == owners.Keys + {ids[i]};
    if DistinctIds(ids[..i + 1]) {
      forall j | 0 <= j < i + 1
        ensures Owns(cb, owners', j)
      {
        if j < i {
          assert ids[..i][j] == ids[j];
          assert Owns(cb, owners, j);
        }
      }
    }
  }

  lemma AssignedAll(cb: Compact, owners: map<nat, nat>)
    requires Placeable(cb) && Assigned(cb, owners, |cb.shortids|)
    ensures |owners| == |cb.shortids| <==> DistinctIds(cb.shortids)
    ensures DistinctIds(cb.shortids) ==> OwnersOk(cb, owners)
  {
    hide SlotOf, Placeable, DistinctIds;
    var ids := cb.shortids;
    assert ids[..|ids|] == ids;
    IdSetSize(ids, |ids|);
    assert |owners| == |owners.Keys|;
    if DistinctIds(ids) {
      forall id | id in owners
        ensures exists i :: 0 <= i < |ids| && ids[i] == id
      {
        IdSetHas(ids, |ids|, id);
      }
      forall i | 0 <= i < |ids|
        ensures ids[i] in owners && owners[ids[i]] == SlotOf(cb, i)
      {
        assert Owns(cb, owners, i);
      }
    }
  }

  // ---------------------------------------------------------------- scanning candidates

  lemma OwnerOf(cb: Compact, owners: map<nat, nat>, id: nat) returns (i: nat)
    requires Placeable(cb) && OwnersOk(cb, owners) && id in owners
    ensures i < |cb.shortids| && cb.shortids[i] == id && owners[id] == SlotOf(cb, i)
  {
    i :| 0 <= i < |cb.shortids| && cb.shortids[i] == id;
  }

  lemma ScanningShape(cb: Compact, short: nat -> nat, a: seq<Candidate>, b: seq<Candidate>, slots: Slots,
                      have: seq<bool>, count: int)
    requires Scanning(cb, short, a, b, slots, have, count)
    ensures |have| == |slots| == TxCount(cb) && Scanned(cb, short, a, b, slots)
    ensures count + |Free(slots, |slots|)| == |cb.shortids|
  {
  }

  lemma CountRoom(cb: Compact, short: nat -> nat, a: seq<Candidate>, b: seq<Candidate>, slots: Slots,
                  have: seq<bool>, count: int)
    requires Scanning(cb, short, a, b, slots, have, count)
    ensures count >= 0
  {
    hide Scanning;
    CountFull(cb, short, a, b, slots, have, count);
  }

  lemma PoolIgnored(cb: Compact, short: nat -> nat, owners: map<nat, nat>, a: seq<Candidate>, c: Candidate,
                    slots: Slots, have: seq<bool>, count: int)
    requires Placeable(cb) && OwnersOk(cb, owners) && short(c.hash) !in owners
    requires Scanning(cb, short, a, [], slots, have, count)
    ensures Scanning(cb, short, a + [c], [], slots, have, count)
  {
    hide Placeable, Scanning, Matches;
    forall j | 0 <= j < |cb.shortids|
      ensures SameMatches(cb, short, a, [], a + [c], [], j)
    {
      UnmatchedStep(cb, short, a, c, j);
    }
    IgnoreStep(cb, short, a, [], a + [c], [], slots, have, count);
  }

  lemma ExtraIgnored(cb: Compact, short: nat -> nat, owners: map<nat, nat>, a: seq<Candidate>, b: seq<Candidate>,
                     c: Candidate, slots: Slots, have: seq<bool>, count: int)
    requires Placeable(cb) && OwnersOk(cb, owners) && short(c.hash) !in owners
    requires Scanning(cb, short, a, b, slots, have, count)
    ensures Scanning(cb, short, a, b + [c], slots, have, count)
  {
    hide Placeable, Scanning, Matches;
    forall j | 0 <= j < |cb.shortids|
      ensures SameMatches(cb, short, a, b, a, b + [c], j)
    {
      UnmatchedStep(cb, short, b, c, j);
    }
    IgnoreStep(cb, short, a, b, a, b + [c], slots, have, count);
  }

  lemma {:induction false} FillStuck(slots: Slots, missing: seq<Tx>, p: nat, q: nat)
    requires p <= q <= |slots| && CompactBlocks.Fill(slots, missing, p) == None
    ensures CompactBlocks.Fill(slots, missing, q) == None
  {
    if p < q {
      FillStuck(slots, missing, p, q - 1);
    }
  }
}
