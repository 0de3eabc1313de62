/**
 Compact blocks: a block announced by prefilled transactions and short ids, reconstructed by
 the receiver from its memory pool and from the transactions it asks for.
 */
module CompactBlocks {
  import opened BlockRequests
  import opened Options

  datatype Tx = Tx(hash: nat, witnessHash: nat, isNull: bool)

  /** `index` counts the transactions skipped since the previous prefilled one. */
  datatype Prefilled = Prefilled(index: nat, tx: Tx)

  datatype Compact = Compact(headerIsNull: bool, shortids: seq<nat>, prefilled: seq<Prefilled>)

  datatype Status = Ok | Invalid | Failed | CheckBlockFailed

  /** A transaction known to the receiver, with the hash its short id is taken from. */
  datatype Candidate = Candidate(hash: nat, tx: Tx)

  type Slots = seq<Option<Tx>>

  const MAX_BLOCK_WEIGHT: nat := 6000000
  const MIN_SERIALIZABLE_TRANSACTION_WEIGHT: nat := 40
  const MAX_BLOCK_TXS: nat := MAX_BLOCK_WEIGHT / MIN_SERIALIZABLE_TRANSACTION_WEIGHT
  const U16: nat := UINT16_MAX + 1

  function TxCount(cb: Compact): nat {
    |cb.shortids| + |cb.prefilled|
  }

  // ---------------------------------------------------------------- free slots

  /** The empty slots below `p`, ascending. */
  function Free(slots: Slots, p: nat): (r: seq<nat>)
    requires p <= |slots|
    ensures |r| <= p
  {
    if p == 0 then [] else Free(slots, p - 1) + if slots[p - 1].None? then [p - 1] else []
  }

  lemma {:induction false} FreeFacts(slots: Slots, p: nat)
    requires p <= |slots|
    ensures forall i :: 0 <= i < |Free(slots, p)| ==> Free(slots, p)[i] < p && slots[Free(slots, p)[i]].None?
    ensures Increasing(Free(slots, p))
  {
    if p > 0 {
      FreeFacts(slots, p - 1);
    }
  }

  /** An empty slot stands in the list at the number of empty slots before it. */
  lemma {:induction false} FreeIndex(slots: Slots, q: nat, p: nat)
    requires q < p <= |slots| && slots[q].None?
    ensures |Free(slots, q)| < |Free(slots, p)| && Free(slots, p)[|Free(slots, q)|] == q
  {
    if q < p - 1 {
      FreeIndex(slots, q, p - 1);
    }
  }

  lemma {:induction false} FreeAgree(slots: Slots, slots': Slots, p: nat)
    requires p <= |slots| && p <= |slots'|
    requires forall q :: 0 <= q < p ==> slots[q].None? == slots'[q].None?
    ensures Free(slots, p) == Free(slots', p)
  {
    if p > 0 {
      FreeAgree(slots, slots', p - 1);
    }
  }

  /** Filling one empty slot leaves one empty slot less. */
  lemma {:induction false} FreeFill(slots: Slots, q: nat, tx: Tx, p: nat)
    requires q < p <= |slots| && slots[q].None?
    ensures |Free(slots[q := Some(tx)], p)| == |Free(slots, p)| - 1
  {
    if q == p - 1 {
      FreeAgree(slots, slots[q := Some(tx)], q);
    } else {
      FreeFill(slots, q, tx, p - 1);
    }
  }

  // ---------------------------------------------------------------- prefilled transactions

  /** The slot of the i-th prefilled transaction. */
  function Position(prefilled: seq<Prefilled>, i: nat): nat
    requires i < |prefilled|
  {
    prefilled[i].index + if i == 0 then 0 else Position(prefilled, i - 1) + 1
  }

  predicate PlaceOk(cb: Compact, i: nat)
    requires i < |cb.prefilled|
  {
    && !cb.prefilled[i].tx.isNull
    && Position(cb.prefilled, i) <= UINT16_MAX
    && Position(cb.prefilled, i) <= |cb.shortids| + i
  }

  predicate Placeable(cb: Compact) {
    forall i :: 0 <= i < |cb.prefilled| ==> PlaceOk(cb, i)
  }

  lemma {:induction false} PositionsIncrease(prefilled: seq<Prefilled>, i: nat, j: nat)
    requires i < j < |prefilled|
    ensures Position(prefilled, i) < Position(prefilled, j)
  {
    if i < j - 1 {
      PositionsIncrease(prefilled, i, j - 1);
    }
  }

  lemma {:induction false} PositionsApart(prefilled: seq<Prefilled>, i: nat, j: nat)
    requires i <= j < |prefilled|
    ensures Position(prefilled, i) + (j - i) <= Position(prefilled, j)
  {
    if i < j {
      PositionsApart(prefilled, i, j - 1);
    }
  }

  /** The slot-by-slot test on arrival comes to this: no null transaction, and every slot exists and has a number. */
  lemma PlaceableIff(cb: Compact)
    ensures Placeable(cb) <==>
      forall i :: 0 <= i < |cb.prefilled| ==>
        !cb.prefilled[i].tx.isNull && Position(cb.prefilled, i) < TxCount(cb) && Position(cb.prefilled, i) <= 65535
  {
    hide Position;
    var n := |cb.prefilled|;
    forall i | 0 <= i < n
      ensures Position(cb.prefilled, i) + (n - 1 - i) <= Position(cb.prefilled, n - 1)
    {
      PositionsApart(cb.prefilled, i, n - 1);
    }
    if Placeable(cb) {
      forall i | 0 <= i < n
        ensures !cb.prefilled[i].tx.isNull && Position(cb.prefilled, i) < TxCount(cb)
        ensures Position(cb.prefilled, i) <= 65535
      {
        assert PlaceOk(cb, i);
      }
    }
  }

  /** The slots once the first `k` prefilled transactions are in place. */
  function Prefill(cb: Compact, k: nat): (r: Slots)
    requires k <= |cb.prefilled| && Placeable(cb)
    ensures |r| == TxCount(cb)
  {
    if k == 0 then seq(TxCount(cb), p => None) else
      assert PlaceOk(cb, k - 1);
      Prefill(cb, k - 1)[Position(cb.prefilled, k - 1) := Some(cb.prefilled[k - 1].tx)]
  }

  lemma {:induction false} PrefillAt(cb: Compact, k: nat, p: nat)
    requires k <= |cb.prefilled| && Placeable(cb) && p < TxCount(cb)
    ensures Prefill(cb, k)[p].Some? <==> exists i :: 0 <= i < k && Position(cb.prefilled, i) == p
    ensures forall i :: 0 <= i < k && Position(cb.prefilled, i) == p ==>
      Prefill(cb, k)[p] == Some(cb.prefilled[i].tx)
  {
    if k > 0 {
      PrefillAt(cb, k - 1, p);
      assert PlaceOk(cb, k - 1);
      forall i | 0 <= i < k - 1
        ensures Position(cb.prefilled, i) < Position(cb.prefilled, k - 1)
      {
        PositionsIncrease(cb.prefilled, i, k - 1);
      }
      var last := k - 1;
      if Position(cb.prefilled, last) == p {
        assert Prefill(cb, k)[p] == Some(cb.prefilled[last].tx);
        PlacedThere(cb, k, p, last);
        forall i | 0 <= i < k && Position(cb.prefilled, i) == p
          ensures Prefill(cb, k)[p] == Some(cb.prefilled[i].tx)
        {
          assert i == last;
        }
      } else {
        assert Prefill(cb, k)[p] == Prefill(cb, k - 1)[p];
        if Prefill(cb, k - 1)[p].Some? {
          var i :| 0 <= i < k - 1 && Position(cb.prefilled, i) == p;
          PlacedThere(cb, k, p, i);
        }
        forall i | 0 <= i < k && Position(cb.prefilled, i) == p
          ensures Prefill(cb, k)[p] == Some(cb.prefilled[i].tx)
        {
          assert i < k - 1;
        }
      }
    }
  }

  lemma PlacedThere(cb: Compact, k: nat, p: nat, j: nat)
    requires j < k <= |cb.prefilled| && Position(cb.prefilled, j) == p
    ensures exists i :: 0 <= i < k && Position(cb.prefilled, i) == p
  {
  }

  /** There are exactly as many free slots as short ids. */
  lemma {:induction false} PrefillFree(cb: Compact, k: nat)
    requires k <= |cb.prefilled| && Placeable(cb)
    ensures |Free(Prefill(cb, k), TxCount(cb))| == TxCount(cb) - k
  {
    if k == 0 {
      AllFree(Prefill(cb, 0), TxCount(cb));
    } else {
      PrefillFree(cb, k - 1);
      assert PlaceOk(cb, k - 1);
      var p := Position(cb.prefilled, k - 1);
      PrefillAt(cb, k - 1, p);
      if exists i :: 0 <= i < k - 1 && Position(cb.prefilled, i) == p {
        var i :| 0 <= i < k - 1 && Position(cb.prefilled, i) == p;
        PositionsIncrease(cb.prefilled, i, k - 1);
      }
      FreeFill(Prefill(cb, k - 1), p, cb.prefilled[k - 1].tx, TxCount(cb));
    }
  }

  lemma {:induction false} AllFree(slots: Slots, p: nat)
    requires p <= |slots| && forall q :: 0 <= q < p ==> slots[q].None?
    ensures |Free(slots, p)| == p
  {
    if p > 0 {
      AllFree(slots, p - 1);
    }
  }

  /** The slot that the i-th short id stands for: the i-th one not prefilled. */
  function SlotOf(cb: Compact, i: nat): (p: nat)
    requires Placeable(cb) && i < |cb.shortids|
    ensures p < TxCount(cb)
  {
    PrefillFree(cb, |cb.prefilled|);
    FreeFacts(Prefill(cb, |cb.prefilled|), TxCount(cb));
    Free(Prefill(cb, |cb.prefilled|), TxCount(cb))[i]
  }

  // ---------------------------------------------------------------- honest announcements

  function HashOf(tx: Tx, useWtxid: bool): nat {
    if useWtxid then tx.witnessHash else tx.hash
  }

  /** The message announces the block: prefilled transactions in place, the others by short id. */
  ghost predicate Describes(cb: Compact, vtx: seq<Tx>, short: nat -> nat, useWtxid: bool) {
    && Placeable(cb) && |vtx| == TxCount(cb)
    && (forall i :: 0 <= i < |cb.prefilled| ==>
          PlaceOk(cb, i) && cb.prefilled[i].tx == vtx[Position(cb.prefilled, i)])
    && (forall i :: 0 <= i < |cb.shortids| ==>
          cb.shortids[i] == short(HashOf(vtx[SlotOf(cb, i)], useWtxid)))
  }

  ghost predicate Consistent(slots: Slots, vtx: seq<Tx>) {
    && |slots| == |vtx|
    && forall p :: 0 <= p < |slots| ==> slots[p].None? || slots[p] == Some(vtx[p])
  }

  // ---------------------------------------------------------------- filling in

  /** The block's transactions for the slots still empty: what is asked for and sent. */
  function Missing(slots: Slots, vtx: seq<Tx>, p: nat): seq<Tx>
    requires p <= |slots| <= |vtx|
  {
    if p == 0 then [] else Missing(slots, vtx, p - 1) + if slots[p - 1].None? then [vtx[p - 1]] else []
  }

  /** The transactions of the first `p` slots, taking missing ones in order; None if too few. */
  function Fill(slots: Slots, missing: seq<Tx>, p: nat): Option<seq<Tx>>
    requires p <= |slots|
  {
    if p == 0 then Some([]) else
      match Fill(slots, missing, p - 1)
      case None => None
      case Some(done) =>
        if slots[p - 1].Some? then Some(done + [slots[p - 1].value])
        else
          var k := |Free(slots, p - 1)|;
          if k < |missing| then Some(done + [missing[k]]) else None
  }

  lemma {:induction false} MissingSize(slots: Slots, vtx: seq<Tx>, p: nat)
    requires p <= |slots| <= |vtx|
    ensures |Missing(slots, vtx, p)| == |Free(slots, p)|
  {
    if p > 0 {
      MissingSize(slots, vtx, p - 1);
    }
  }

  lemma {:induction false} MissingAt(slots: Slots, vtx: seq<Tx>, q: nat, p: nat)
    requires q < p <= |slots| <= |vtx| && slots[q].None?
    ensures |Free(slots, q)| < |Missing(slots, vtx, p)|
    ensures Missing(slots, vtx, p)[|Free(slots, q)|] == vtx[q]
  {
    MissingSize(slots, vtx, p - 1);
    if q < p - 1 {
      MissingAt(slots, vtx, q, p - 1);
    }
  }

  /** Filling the empty slots with the block's own transactions gives back the block. */
  lemma {:induction false} FillRebuilds(slots: Slots, vtx: seq<Tx>, p: nat)
    requires Consistent(slots, vtx) && p <= |slots|
    ensures Fill(slots, Missing(slots, vtx, |slots|), p) == Some(vtx[..p])
  {
    if p > 0 {
      FillRebuilds(slots, vtx, p - 1);
      if slots[p - 1].None? {
        MissingAt(slots, vtx, p - 1, |slots|);
      }
      assert vtx[..p] == vtx[..p - 1] + [vtx[p - 1]];
    }
  }

  /** What is missing is what a request for the free slots brings back. */
  lemma {:induction false} MissingIsRequested(slots: Slots, vtx: seq<Tx>, p: nat)
    requires p <= |slots| <= |vtx|
    ensures |Missing(slots, vtx, p)| == |Free(slots, p)|
    ensures forall i :: 0 <= i < |Free(slots, p)| ==>
      Free(slots, p)[i] < |vtx| && Missing(slots, vtx, p)[i] == vtx[Free(slots, p)[i]]
  {
    if p > 0 {
      MissingIsRequested(slots, vtx, p - 1);
    }
  }
}
