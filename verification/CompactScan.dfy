/**
 What the receiver finds among the transactions it knows: the memory pool first, then the
 extra transactions, each scan ending early once every announced slot is filled.
 */
module CompactScan {
  import opened BlockRequests
  import opened CompactBlocks
  import opened Options

  predicate DistinctIds(ids: seq<nat>) {
    forall i, j :: 0 <= i < j < |ids| ==> ids[i] != ids[j]
  }

  /** The candidates whose short id is `id`, in order. */
  function Matches(short: nat -> nat, cands: seq<Candidate>, id: nat): seq<Tx> {
    if cands == [] then [] else
      var n := |cands| - 1;
      Matches(short, cands[..n], id) + if short(cands[n].hash) == id then [cands[n].tx] else []
  }

  predicate SameWitness(txs: seq<Tx>, w: nat) {
    forall k :: 0 <= k < |txs| ==> txs[k].witnessHash == w
  }

  /**
   What is kept for one short id, from its matches: nothing after two matches in the pool;
   otherwise the first match, unless a match among the extra ones has another witness hash.
   */
  function Found(pool: seq<Tx>, extra: seq<Tx>): Option<Tx> {
    if |pool| > 1 || pool + extra == [] then None
    else if SameWitness(extra, (pool + extra)[0].witnessHash) then Some((pool + extra)[0])
    else None
  }

  ghost function FoundFor(cb: Compact, short: nat -> nat, a: seq<Candidate>, b: seq<Candidate>, i: nat): Option<Tx>
    requires i < |cb.shortids|
  {
    Found(Matches(short, a, cb.shortids[i]), Matches(short, b, cb.shortids[i]))
  }

  /** Every announced slot is filled from pool transactions `a` and extra transactions `b`. */
  ghost predicate AllFound(cb: Compact, short: nat -> nat, a: seq<Candidate>, b: seq<Candidate>) {
    forall i :: 0 <= i < |cb.shortids| ==> FoundFor(cb, short, a, b, i).Some?
  }

  /** The slots after scanning `a` and `b`: prefilled ones untouched, the others as found. */
  ghost predicate Scanned(cb: Compact, short: nat -> nat, a: seq<Candidate>, b: seq<Candidate>, slots: Slots) {
    && Placeable(cb) && |slots| == TxCount(cb)
    && (forall p :: 0 <= p < |slots| && Prefill(cb, |cb.prefilled|)[p].Some? ==>
          slots[p] == Prefill(cb, |cb.prefilled|)[p])
    && (forall i :: 0 <= i < |cb.shortids| ==> slots[SlotOf(cb, i)] == FoundFor(cb, short, a, b, i))
  }

  /** The pool is scanned to its end, or to the first transaction that leaves every slot filled. */
  ghost predicate PoolStop(cb: Compact, short: nat -> nat, pool: seq<Candidate>, m: nat) {
    && m <= |pool| && (m < |pool| ==> m > 0 && AllFound(cb, short, pool[..m], []))
    && forall j: nat :: 0 < j < m ==> !AllFound(cb, short, pool[..j], [])
  }

  ghost predicate ExtraStop(cb: Compact, short: nat -> nat, a: seq<Candidate>, extra: seq<Candidate>, k: nat) {
    && k <= |extra| && (k < |extra| ==> k > 0 && AllFound(cb, short, a, extra[..k]))
    && forall j: nat :: 0 < j < k ==> !AllFound(cb, short, a, extra[..j])
  }

  /** What a successful InitData leaves, exactly. */
  ghost predicate Initialized(cb: Compact, short: nat -> nat, pool: seq<Candidate>, extra: seq<Candidate>,
                              m: nat, k: nat, slots: Slots)
  {
    && PoolStop(cb, short, pool, m) && ExtraStop(cb, short, pool[..m], extra, k)
    && Scanned(cb, short, pool[..m], extra[..k], slots)
  }

  // ---------------------------------------------------------------- matches

  lemma MatchesSnoc(short: nat -> nat, cands: seq<Candidate>, c: Candidate, id: nat)
    ensures Matches(short, cands + [c], id)
         == Matches(short, cands, id) + if short(c.hash) == id then [c.tx] else []
  {
    assert (cands + [c])[..|cands|] == cands;
  }

  lemma {:induction false} MatchesConcat(short: nat -> nat, a: seq<Candidate>, b: seq<Candidate>, id: nat)
    ensures Matches(short, a + b, id) == Matches(short, a, id) + Matches(short, b, id)
  {
    if b == [] {
      assert a + b == a;
    } else {
      hide Matches;
      var init, last := b[..|b| - 1], b[|b| - 1];
      MatchesConcat(short, a, init, id);
      assert b == init + [last] && a + b == (a + init) + [last];
      MatchesSnoc(short, a + init, last, id);
      MatchesSnoc(short, init, last, id);
    }
  }

  lemma {:induction false} MatchesFrom(short: nat -> nat, cands: seq<Candidate>, id: nat, tx: Tx) returns (k: nat)
    requires tx in Matches(short, cands, id)
    ensures k < |cands| && cands[k].tx == tx && short(cands[k].hash) == id
  {
    var n := |cands| - 1;
    if short(cands[n].hash) == id && cands[n].tx == tx {
      k := n;
    } else {
      k := MatchesFrom(short, cands[..n], id, tx);
    }
  }

  /** One more match in the pool: kept if it is the first, and nothing is kept from then on. */
  lemma FoundPool(pool: seq<Tx>, tx: Tx)
    ensures Found(pool + [tx], []) == if pool == [] then Some(tx) else None
  {
  }

  /** One more match among the extra ones: the same witness hash does no harm. */
  lemma FoundExtra(pool: seq<Tx>, extra: seq<Tx>, tx: Tx)
    ensures
      var was := Found(pool, extra);
      Found(pool, extra + [tx]) ==
        if pool + extra == [] then Some(tx)
        else if was.Some? && was.value.witnessHash == tx.witnessHash then was else None
  {
    var now := extra + [tx];
    if pool + extra != [] && |pool| <= 1 {
      var first := (pool + extra)[0];
      assert first == (pool + now)[0];
      if SameWitness(now, first.witnessHash) {
        assert forall k :: 0 <= k < |extra| ==> extra[k] == now[k];
        assert now[|extra|] == tx;
      }
    }
  }

  lemma FoundAmong(pool: seq<Tx>, extra: seq<Tx>)
    ensures Found(pool, extra).Some? ==> Found(pool, extra).value in pool + extra
  {
  }

  lemma {:induction false} MatchesHas(short: nat -> nat, cands: seq<Candidate>, id: nat, x: nat)
    requires x < |cands| && short(cands[x].hash) == id
    ensures cands[x].tx in Matches(short, cands, id)
  {
    if x < |cands| - 1 { MatchesHas(short, cands[..|cands| - 1], id, x); }
  }

  lemma {:induction false} MatchesTwo(short: nat -> nat, cands: seq<Candidate>, id: nat, x: nat, y: nat)
    requires x < y < |cands| && short(cands[x].hash) == id && short(cands[y].hash) == id
    ensures |Matches(short, cands, id)| >= 2
  {
    var init := cands[..|cands| - 1];
    if y < |cands| - 1 { MatchesTwo(short, init, id, x, y); } else { MatchesHas(short, init, id, x); }
  }

  /**
   An ambiguous short id is never available: neither with two matches among the pool transactions
   looked at, nor with an extra match whose witness hash is not that of the transaction kept.
   */
  lemma AmbiguousDropped(cb: Compact, short: nat -> nat, pool: seq<Candidate>, extra: seq<Candidate>,
                         m: nat, k: nat, slots: Slots, i: nat)
    requires Initialized(cb, short, pool, extra, m, k, slots) && i < |cb.shortids|
    ensures forall x, y :: 0 <= x < y < m && short(pool[x].hash) == cb.shortids[i] == short(pool[y].hash) ==>
      slots[SlotOf(cb, i)].None?
    ensures forall x :: 0 <= x < k && short(extra[x].hash) == cb.shortids[i] && slots[SlotOf(cb, i)].Some? ==>
      slots[SlotOf(cb, i)].value.witnessHash == extra[x].tx.witnessHash
  {
    hide SlotOf, Placeable, Matches, Prefill, AllFound;
    var id := cb.shortids[i];
    forall x, y | 0 <= x < y < m && short(pool[x].hash) == id == short(pool[y].hash)
      ensures slots[SlotOf(cb, i)].None?
    {
      assert pool[..m][x] == pool[x] && pool[..m][y] == pool[y];
      MatchesTwo(short, pool[..m], id, x, y);
    }
    forall x | 0 <= x < k && short(extra[x].hash) == id && slots[SlotOf(cb, i)].Some?
      ensures slots[SlotOf(cb, i)].value.witnessHash == extra[x].tx.witnessHash
    {
      assert extra[..k][x] == extra[x];
      MatchesHas(short, extra[..k], id, x);
    }
  }

  /**
   A short id with exactly one match among everything the receiver knows ends up available,
   with that transaction, however early the scans ended.
   */
  lemma SingleMatchKept(cb: Compact, short: nat -> nat, pool: seq<Candidate>, extra: seq<Candidate>,
                        m: nat, k: nat, slots: Slots, i: nat, tx: Tx)
    requires Initialized(cb, short, pool, extra, m, k, slots) && i < |cb.shortids|
    requires Matches(short, pool + extra, cb.shortids[i]) == [tx]
    ensures slots[SlotOf(cb, i)] == Some(tx)
  {
    hide SlotOf, Placeable, Matches, Prefill;
    var id := cb.shortids[i];
    var a, a', b, b' := pool[..m], pool[m..], extra[..k], extra[k..];
    assert pool == a + a' && extra == b + b';
    MatchesConcat(short, pool, extra, id);
    MatchesConcat(short, a, a', id);
    MatchesConcat(short, b, b', id);
    NoMatches(short, id);
    var p, q := Matches(short, a, id), Matches(short, b, id);
    if m < |pool| {
      assert FoundFor(cb, short, a, [], i).Some?;
    } else {
      assert a' == [];
    }
    if k < |extra| {
      assert FoundFor(cb, short, a, b, i).Some?;
    } else {
      assert b' == [];
    }
    assert p + q == [tx];
    assert slots[SlotOf(cb, i)] == FoundFor(cb, short, a, b, i);
    assert SameWitness(q, tx.witnessHash);
  }

  lemma NoMatches(short: nat -> nat, id: nat)
    ensures Matches(short, [], id) == []
  {
  }

  // ---------------------------------------------------------------- the scan, step by step

  /** Invariant of the scans; `have` marks the slots that some candidate has matched. */
  ghost predicate Scanning(cb: Compact, short: nat -> nat, a: seq<Candidate>, b: seq<Candidate>, slots: Slots,
                           have: seq<bool>, count: int)
  {
    && Scanned(cb, short, a, b, slots) && |have| == |slots|
    && (forall i :: 0 <= i < |cb.shortids| ==>
          have[SlotOf(cb, i)] == (Matches(short, a, cb.shortids[i]) + Matches(short, b, cb.shortids[i]) != []))
    && count + |Free(slots, |slots|)| == |cb.shortids|
  }

  lemma SlotIs(cb: Compact, i: nat)
    requires Placeable(cb) && i < |cb.shortids|
    ensures |Free(Prefill(cb, |cb.prefilled|), TxCount(cb))| == |cb.shortids|
    ensures SlotOf(cb, i) == Free(Prefill(cb, |cb.prefilled|), TxCount(cb))[i]
    ensures Prefill(cb, |cb.prefilled|)[SlotOf(cb, i)].None?
  {
    PrefillFree(cb, |cb.prefilled|);
    FreeFacts(Prefill(cb, |cb.prefilled|), TxCount(cb));
  }

  lemma SlotsDiffer(cb: Compact, i: nat, j: nat)
    requires Placeable(cb) && i < |cb.shortids| && j < |cb.shortids| && i != j
    ensures SlotOf(cb, i) != SlotOf(cb, j)
  {
    hide SlotOf, Prefill, Free;
    SlotIs(cb, i);
    SlotIs(cb, j);
    FreeFacts(Prefill(cb, |cb.prefilled|), TxCount(cb));
    var f := Free(Prefill(cb, |cb.prefilled|), TxCount(cb));
    if i < j { FarApart(f, i, j); } else { FarApart(f, j, i); }
  }

  lemma {:induction false} FarApart(f: seq<nat>, i: nat, j: nat)
    requires Increasing(f) && i < j < |f|
    ensures f[i] < f[j]
  {
    if i < j - 1 { FarApart(f, i, j - 1); }
  }

  /** A slot that is not prefilled belongs to some short id. */
  lemma SlotOwner(cb: Compact, p: nat) returns (i: nat)
    requires Placeable(cb) && p < TxCount(cb) && Prefill(cb, |cb.prefilled|)[p].None?
    ensures i < |cb.shortids| && SlotOf(cb, i) == p
  {
    hide Prefill, Free;
    var slots := Prefill(cb, |cb.prefilled|);
    PrefillFree(cb, |cb.prefilled|);
    FreeIndex(slots, p, TxCount(cb));
    i := |Free(slots, p)|;
    SlotIs(cb, i);
  }

  lemma ScanningStart(cb: Compact, short: nat -> nat, have: seq<bool>)
    requires Placeable(cb) && |have| == TxCount(cb) && forall p :: 0 <= p < |have| ==> !have[p]
    ensures Scanning(cb, short, [], [], Prefill(cb, |cb.prefilled|), have, 0)
  {
    hide Prefill, SlotOf, Placeable;
    PrefillFree(cb, |cb.prefilled|);
    forall i | 0 <= i < |cb.shortids|
      ensures Prefill(cb, |cb.prefilled|)[SlotOf(cb, i)] == FoundFor(cb, short, [], [], i)
    {
      SlotIs(cb, i);
    }
  }

  ghost predicate SameMatches(cb: Compact, short: nat -> nat, a: seq<Candidate>, b: seq<Candidate>,
                              a': seq<Candidate>, b': seq<Candidate>, j: nat)
    requires j < |cb.shortids|
  {
    && Matches(short, a', cb.shortids[j]) == Matches(short, a, cb.shortids[j])
    && Matches(short, b', cb.shortids[j]) == Matches(short, b, cb.shortids[j])
  }

  /** A candidate that matches no short id changes nothing. */
  lemma IgnoreStep(cb: Compact, short: nat -> nat, a: seq<Candidate>, b: seq<Candidate>,
                   a': seq<Candidate>, b': seq<Candidate>, slots: Slots, have: seq<bool>, count: int)
    requires Scanning(cb, short, a, b, slots, have, count)
    requires forall j :: 0 <= j < |cb.shortids| ==> SameMatches(cb, short, a, b, a', b', j)
    ensures Scanning(cb, short, a', b', slots, have, count)
  {
    hide Prefill, SlotOf, Placeable, Matches, Found;
    forall j | 0 <= j < |cb.shortids|
      ensures FoundFor(cb, short, a', b', j) == FoundFor(cb, short, a, b, j)
      ensures Matches(short, a', cb.shortids[j]) + Matches(short, b', cb.shortids[j])
           == Matches(short, a, cb.shortids[j]) + Matches(short, b, cb.shortids[j])
    {
      assert SameMatches(cb, short, a, b, a', b', j);
    }
  }

  function One(o: Option<Tx>): int { if o.Some? then 1 else 0 }

  /** A candidate that matches short id `i` gives its slot the value now found for it. */
  lemma MatchStep(cb: Compact, short: nat -> nat, a: seq<Candidate>, b: seq<Candidate>,
                  a': seq<Candidate>, b': seq<Candidate>, slots: Slots, have: seq<bool>, count: int, i: nat)
    requires Scanning(cb, short, a, b, slots, have, count) && i < |cb.shortids|
    requires forall j :: 0 <= j < |cb.shortids| && j != i ==> SameMatches(cb, short, a, b, a', b', j)
    requires Matches(short, a', cb.shortids[i]) + Matches(short, b', cb.shortids[i]) != []
    ensures
      var p, v := SlotOf(cb, i), FoundFor(cb, short, a', b', i);
      Scanning(cb, short, a', b', slots[p := v], have[p := true], count + One(v) - One(slots[p]))
  {
    hide Prefill, SlotOf, Placeable, Matches, Found, Free;
    var p, v := SlotOf(cb, i), FoundFor(cb, short, a', b', i);
    SlotIs(cb, i);
    forall j | 0 <= j < |cb.shortids| && j != i
      ensures SlotOf(cb, j) != p && FoundFor(cb, short, a', b', j) == FoundFor(cb, short, a, b, j)
      ensures Matches(short, a', cb.shortids[j]) + Matches(short, b', cb.shortids[j])
           == Matches(short, a, cb.shortids[j]) + Matches(short, b, cb.shortids[j])
    {
      SlotsDiffer(cb, i, j);
      assert SameMatches(cb, short, a, b, a', b', j);
    }
    FreeChange(slots, p, v);
  }

  lemma FreeChange(slots: Slots, p: nat, v: Option<Tx>)
    requires p < |slots|
    ensures |Free(slots[p := v], |slots|)| == |Free(slots, |slots|)| + One(slots[p]) - One(v)
  {
    hide Free;
    var now := slots[p := v];
    if slots[p].None? && v.Some? {
      FreeFill(slots, p, v.value, |slots|);
    } else if slots[p].Some? && v.None? {
      FreeFill(now, p, slots[p].value, |slots|);
      assert now[p := slots[p]] == slots;
    } else {
      FreeAgree(slots, now, |slots|);
    }
  }

  lemma OthersSame(cb: Compact, short: nat -> nat, a: seq<Candidate>, c: Candidate, i: nat, j: nat)
    requires DistinctIds(cb.shortids) && i < |cb.shortids| && j < |cb.shortids| && i != j
    requires short(c.hash) == cb.shortids[i]
    ensures Matches(short, a + [c], cb.shortids[j]) == Matches(short, a, cb.shortids[j])
  {
    hide Matches;
    MatchesSnoc(short, a, c, cb.shortids[j]);
  }

  /** A pool transaction matches short id `i`: the first is kept, a second empties the slot for good. */
  lemma PoolStep(cb: Compact, short: nat -> nat, a: seq<Candidate>, c: Candidate, slots: Slots,
                 have: seq<bool>, count: int, i: nat)
    requires Scanning(cb, short, a, [], slots, have, count) && DistinctIds(cb.shortids)
    requires i < |cb.shortids| && short(c.hash) == cb.shortids[i]
    ensures
      var p := SlotOf(cb, i);
      var v: Option<Tx> := if have[p] then None else Some(c.tx);
      && Scanning(cb, short, a + [c], [], slots[p := v], have[p := true], count + One(v) - One(slots[p]))
      && (!have[p] ==> slots[p].None?)
  {
    hide Prefill, SlotOf, Placeable, Matches, Found, Free, DistinctIds;
    var id := cb.shortids[i];
    forall j | 0 <= j < |cb.shortids| && j != i
      ensures SameMatches(cb, short, a, [], a + [c], [], j)
    {
      OthersSame(cb, short, a, c, i, j);
    }
    MatchesSnoc(short, a, c, id);
    NoMatches(short, id);
    FoundPool(Matches(short, a, id), c.tx);
    NothingFound();
    MatchStep(cb, short, a, [], a + [c], [], slots, have, count, i);
  }

  lemma NothingFound()
    ensures Found([], []) == None
  {
  }

  /** An extra transaction matches short id `i`. */
  lemma ExtraStep(cb: Compact, short: nat -> nat, a: seq<Candidate>, b: seq<Candidate>, c: Candidate,
                  slots: Slots, have: seq<bool>, count: int, i: nat)
    requires Scanning(cb, short, a, b, slots, have, count) && DistinctIds(cb.shortids)
    requires i < |cb.shortids| && short(c.hash) == cb.shortids[i]
    ensures
      var p := SlotOf(cb, i);
      var v: Option<Tx> := if !have[p] then Some(c.tx)
                           else if slots[p].Some? && slots[p].value.witnessHash == c.tx.witnessHash then slots[p]
                           else None;
      && Scanning(cb, short, a, b + [c], slots[p := v], have[p := true], count + One(v) - One(slots[p]))
      && (!have[p] ==> slots[p].None?)
  {
    hide Prefill, SlotOf, Placeable, Matches, Found, Free, DistinctIds;
    var id := cb.shortids[i];
    forall j | 0 <= j < |cb.shortids| && j != i
      ensures SameMatches(cb, short, a, b, a, b + [c], j)
    {
      OthersSame(cb, short, b, c, i, j);
    }
    MatchesSnoc(short, b, c, id);
    FoundExtra(Matches(short, a, id), Matches(short, b, id), c.tx);
    NothingFound();
    MatchStep(cb, short, a, b, a, b + [c], slots, have, count, i);
  }

  /** No short id is matched by a candidate outside the map. */
  lemma UnmatchedStep(cb: Compact, short: nat -> nat, a: seq<Candidate>, c: Candidate, j: nat)
    requires j < |cb.shortids| && short(c.hash) != cb.shortids[j]
    ensures Matches(short, a + [c], cb.shortids[j]) == Matches(short, a, cb.shortids[j])
  {
    hide Matches;
    MatchesSnoc(short, a, c, cb.shortids[j]);
  }

  /** The count reaches the number of short ids exactly when every slot is filled. */
  lemma CountFull(cb: Compact, short: nat -> nat, a: seq<Candidate>, b: seq<Candidate>, slots: Slots,
                  have: seq<bool>, count: int)
    requires Scanning(cb, short, a, b, slots, have, count)
    ensures count == |cb.shortids| <==> AllFound(cb, short, a, b)
    ensures 0 <= count <= |cb.shortids|
  {
    hide Prefill, SlotOf, Placeable, Matches, Found, Free;
    if AllFound(cb, short, a, b) {
      forall p | 0 <= p < |slots|
        ensures slots[p].Some?
      {
        if Prefill(cb, |cb.prefilled|)[p].None? {
          var i := SlotOwner(cb, p);
          assert slots[SlotOf(cb, i)] == FoundFor(cb, short, a, b, i);
        }
      }
      NoneFree(slots, |slots|);
    }
    if |Free(slots, |slots|)| == 0 {
      forall i | 0 <= i < |cb.shortids|
        ensures FoundFor(cb, short, a, b, i).Some?
      {
        var p := SlotOf(cb, i);
        if slots[p].None? { FreeIndex(slots, p, |slots|); }
      }
    }
    PrefillFree(cb, |cb.prefilled|);
    FreeSubset(slots, Prefill(cb, |cb.prefilled|), |slots|);
  }

  lemma {:induction false} NoneFree(slots: Slots, p: nat)
    requires p <= |slots| && forall q :: 0 <= q < p ==> slots[q].Some?
    ensures Free(slots, p) == []
  {
    if p > 0 { NoneFree(slots, p - 1); }
  }

  lemma {:induction false} FreeSubset(a: Slots, b: Slots, p: nat)
    requires p <= |a| && p <= |b| && forall q :: 0 <= q < p && b[q].Some? ==> a[q].Some?
    ensures |Free(a, p)| <= |Free(b, p)|
  {
    if p > 0 {
      FreeSubset(a, b, p - 1);
    }
  }

  // ---------------------------------------------------------------- honest announcements

  /** Candidates that match a short id of the block are the block's own transactions. */
  ghost predicate TrueMatches(cb: Compact, vtx: seq<Tx>, short: nat -> nat, known: seq<Candidate>)
    requires Placeable(cb) && |vtx| == TxCount(cb)
  {
    forall k, i :: 0 <= k < |known| && 0 <= i < |cb.shortids| && short(known[k].hash) == cb.shortids[i] ==>
      known[k].tx == vtx[SlotOf(cb, i)]
  }

  /** With true matches only, every available transaction is the block's own. */
  lemma InitializedConsistent(cb: Compact, vtx: seq<Tx>, short: nat -> nat, useWtxid: bool,
                              pool: seq<Candidate>, extra: seq<Candidate>, m: nat, k: nat, slots: Slots)
    requires Describes(cb, vtx, short, useWtxid) && TrueMatches(cb, vtx, short, pool + extra)
    requires Initialized(cb, short, pool, extra, m, k, slots)
    ensures Consistent(slots, vtx)
  {
    hide Position, Prefill, SlotOf, Matches, Found;
    forall p | 0 <= p < |slots|
      ensures slots[p].None? || slots[p] == Some(vtx[p])
    {
      PrefillAt(cb, |cb.prefilled|, p);
      if Prefill(cb, |cb.prefilled|)[p].Some? {
        var i :| 0 <= i < |cb.prefilled| && Position(cb.prefilled, i) == p;
        assert PlaceOk(cb, i);
      } else {
        var i := SlotOwner(cb, p);
        FoundTrue(cb, vtx, short, pool, extra, m, k, i);
      }
    }
  }

  lemma FoundTrue(cb: Compact, vtx: seq<Tx>, short: nat -> nat, pool: seq<Candidate>, extra: seq<Candidate>,
                  m: nat, k: nat, i: nat)
    requires Placeable(cb) && |vtx| == TxCount(cb) && TrueMatches(cb, vtx, short, pool + extra)
    requires m <= |pool| && k <= |extra| && i < |cb.shortids|
    ensures
      var f := FoundFor(cb, short, pool[..m], extra[..k], i);
      f.None? || f == Some(vtx[SlotOf(cb, i)])
  {
    hide SlotOf, Placeable, Matches, Found;
    var id := cb.shortids[i];
    var p, q := Matches(short, pool[..m], id), Matches(short, extra[..k], id);
    FoundAmong(p, q);
    var f := Found(p, q);
    if f.Some? {
      if f.value in p {
        var j := MatchesFrom(short, pool[..m], id, f.value);
        assert (pool + extra)[j] == pool[..m][j];
      } else {
        var j := MatchesFrom(short, extra[..k], id, f.value);
        assert (pool + extra)[|pool| + j] == extra[..k][j];
      }
    }
  }
}
