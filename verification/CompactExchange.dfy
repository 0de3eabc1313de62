/** A block sent compactly to an honest receiver arrives as the block itself. */
module CompactExchange {
  import opened BlockRequests
  import opened CompactBlocks
  import opened CompactDownload
  import opened CompactScan
  import opened Options

  /** The announcement of a block: the coinbase prefilled, all others by short id. */
  function Announcement(vtx: seq<Tx>, short: nat -> nat, useWtxid: bool): Compact
    requires |vtx| > 0
  {
    Compact(false, seq<nat>(|vtx| - 1, i requires 0 <= i < |vtx| - 1 => short(HashOf(vtx[i + 1], useWtxid))),
            [Prefilled(0, vtx[0])])
  }

  lemma {:induction false} FreeAfterFirst(slots: Slots, p: nat)
    requires 0 < p <= |slots| && slots[0].Some? && forall q :: 0 < q < |slots| ==> slots[q].None?
    ensures |Free(slots, p)| == p - 1
    ensures forall i :: 0 <= i < p - 1 ==> Free(slots, p)[i] == i + 1
  {
    if p > 1 {
      FreeAfterFirst(slots, p - 1);
    }
  }

  /** The announcement places the coinbase first and gives short id i to transaction i + 1. */
  lemma AnnouncementSlots(vtx: seq<Tx>, short: nat -> nat, useWtxid: bool)
    requires |vtx| > 0 && !vtx[0].isNull
    ensures
      var cb := Announcement(vtx, short, useWtxid);
      && Placeable(cb) && Position(cb.prefilled, 0) == 0
      && forall i :: 0 <= i < |cb.shortids| ==> SlotOf(cb, i) == i + 1
  {
    var cb := Announcement(vtx, short, useWtxid);
    assert Position(cb.prefilled, 0) == 0;
    assert forall i :: 0 <= i < |cb.prefilled| ==> PlaceOk(cb, i);
    var slots := Prefill(cb, 1);
    assert slots == Prefill(cb, 0)[0 := Some(vtx[0])];
    FreeAfterFirst(slots, |vtx|);
    forall i | 0 <= i < |cb.shortids|
      ensures SlotOf(cb, i) == i + 1
    {
      SlotIs(cb, i);
    }
  }

  lemma AnnouncementDescribes(vtx: seq<Tx>, short: nat -> nat, useWtxid: bool)
    requires |vtx| > 0 && !vtx[0].isNull
    ensures Describes(Announcement(vtx, short, useWtxid), vtx, short, useWtxid)
  {
    hide SlotOf, Prefill;
    AnnouncementSlots(vtx, short, useWtxid);
  }

  method Announce(vtx: seq<Tx>, short: nat -> nat, useWtxid: bool) returns (cb: Compact)
    requires |vtx| > 0
    ensures cb == Announcement(vtx, short, useWtxid)
  {
    var shortids: seq<nat> := seq(|vtx| - 1, i => 0);
    for i := 1 to |vtx|
      invariant |shortids| == |vtx| - 1
      invariant forall j :: 1 <= j < i ==> shortids[j - 1] == short(HashOf(vtx[j], useWtxid))
    {
      shortids := shortids[i - 1 := short(if useWtxid then vtx[i].witnessHash else vtx[i].hash)];
    }
    cb := Compact(false, shortids, [Prefilled(0, vtx[0])]);
  }

  /** The slots the receiver asks for. */
  method RequestMissing(block: PartiallyDownloadedBlock) returns (indexes: seq<nat>)
    requires !block.headerIsNull
    ensures indexes == Free(block.txn_available, |block.txn_available|)
  {
    indexes := [];
    for i := 0 to |block.txn_available|
      invariant indexes == Free(block.txn_available, i)
    {
      if !block.IsTxAvailable(i) {
        indexes := indexes + [i];
      }
    }
  }

  method Collect(vtx: seq<Tx>, indexes: seq<nat>) returns (txn: seq<Tx>)
    requires forall i :: 0 <= i < |indexes| ==> indexes[i] < |vtx|
    ensures |txn| == |indexes| && forall i :: 0 <= i < |indexes| ==> txn[i] == vtx[indexes[i]]
  {
    txn := [];
    for i := 0 to |indexes|
      invariant |txn| == i && forall j :: 0 <= j < i ==> txn[j] == vtx[indexes[j]]
    {
      txn := txn + [vtx[indexes[i]]];
    }
  }

  /** No short id occurs twice in the block, and candidates that match one are its transaction. */
  ghost predicate GoodIds(vtx: seq<Tx>, short: nat -> nat, useWtxid: bool, known: seq<Candidate>) {
    && (forall i, j :: 0 < i < j < |vtx| ==>
          short(HashOf(vtx[i], useWtxid)) != short(HashOf(vtx[j], useWtxid)))
    && (forall k, i :: 0 <= k < |known| && 0 < i < |vtx| && short(known[k].hash) == short(HashOf(vtx[i], useWtxid))
          ==> known[k].tx == vtx[i])
  }

  /**
   End to end: announce, initialize, request what is missing through the differential coding,
   fill. Unless a hash bucket was crowded, the receiver ends up with exactly the block.
   */
  method Exchange(vtx: seq<Tx>, short: nat -> nat, useWtxid: bool, pool: seq<Candidate>,
                  extra: seq<Candidate>, crowded: nat -> bool, checks: seq<Tx> -> Status)
    returns (status: Status, received: seq<Tx>)
    requires 0 < |vtx| <= U16 && !vtx[0].isNull
    requires GoodIds(vtx, short, useWtxid, pool + extra)
    ensures (exists i :: 0 <= i < |vtx| - 1 && crowded(i)) ==> status == Failed
    ensures !(exists i :: 0 <= i < |vtx| - 1 && crowded(i)) ==> received == vtx && status == checks(vtx)
  {
    hide Placeable, Prefill, SlotOf, Free, Initialized, Describes, TrueMatches, GoodIds, DistinctIds;
    var cb := Announce(vtx, short, useWtxid);
    AnnouncementSlots(vtx, short, useWtxid);
    AnnouncementDescribes(vtx, short, useWtxid);
    IdsAreGood(vtx, short, useWtxid, pool + extra);
    var block := new PartiallyDownloadedBlock();
    ghost var m, k;
    status, m, k := block.InitData(cb, short, pool, extra, crowded);
    if status != Ok {
      return status, [];
    }
    var slots := block.txn_available;
    InitializedConsistent(cb, vtx, short, useWtxid, pool, extra, m, k, slots);
    ScannedShape(cb, short, pool, extra, m, k, slots);
    var indexes := RequestMissing(block);
    FreeFacts(slots, |slots|);
    var stream := WriteIndexes(indexes);
    RequestRoundTrip(indexes);
    var request := ReadIndexes(stream);
    var txn := Collect(vtx, request.indexes);
    MissingIsRequested(slots, vtx, |slots|);
    assert txn == Missing(slots, vtx, |slots|);
    FillRebuilds(slots, vtx, |slots|);
    assert vtx[..|slots|] == vtx;
    status, received := block.FillBlock(txn, checks);
  }

  lemma ScannedShape(cb: Compact, short: nat -> nat, pool: seq<Candidate>, extra: seq<Candidate>,
                     m: nat, k: nat, slots: Slots)
    requires Initialized(cb, short, pool, extra, m, k, slots)
    ensures |slots| == TxCount(cb)
  {
  }

  lemma IdsAreGood(vtx: seq<Tx>, short: nat -> nat, useWtxid: bool, known: seq<Candidate>)
    requires |vtx| > 0 && !vtx[0].isNull && GoodIds(vtx, short, useWtxid, known)
    ensures
      var cb := Announcement(vtx, short, useWtxid);
      DistinctIds(cb.shortids) && Placeable(cb) && TrueMatches(cb, vtx, short, known)
  {
    hide SlotOf, Placeable;
    AnnouncementSlots(vtx, short, useWtxid);
  }
}
