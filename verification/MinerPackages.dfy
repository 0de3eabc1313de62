/**
 * The bookkeeping behind block template construction: a mempool as a
 * dependency graph with cached ancestor totals, and the map of entries whose
 * totals have been corrected because some ancestor is already in the block.
 */
module MinerPackages {
  import opened Options

  datatype Id = Id(hash: nat)

  /**
   * What the assembler reads of the mempool. `anc(t)` is the set of all
   * in-mempool ancestors of `t`, without `t`; the `...WithAncestors` fields are
   * the totals the mempool caches for `t` together with those ancestors.
   */
  datatype Pool = Pool(
    txs: set<Id>,
    anc: Id -> set<Id>,
    size: Id -> int,
    weight: Id -> int,
    sigOps: Id -> int,
    fee: Id -> int,
    modFee: Id -> int,
    countWithAncestors: Id -> nat,
    sizeWithAncestors: Id -> int,
    sigOpsWithAncestors: Id -> int,
    modFeesWithAncestors: Id -> int)

  /** A corrected entry: the totals of a transaction with its ancestors not yet in the block. */
  datatype Modified = Modified(size: int, modFees: int, sigOps: int)

  /** A transaction with the totals it is judged by. */
  datatype Candidate = Candidate(tx: Id, totals: Modified)

  /** The total of `f` over a set. */
  ghost function Sum(s: set<Id>, f: Id -> int): int {
    if s == {} then 0 else
      var x :| x in s;
      f(x) + Sum(s - {x}, f)
  }

  /** The mempool's own consistency, which the assembler takes as given. */
  ghost predicate Graph(p: Pool) {
    && (forall t :: t in p.txs ==> p.anc(t) <= p.txs && t !in p.anc(t))
    && (forall t, a :: t in p.txs && a in p.anc(t) ==> p.anc(a) <= p.anc(t))
  }

  ghost predicate CachedAt(p: Pool, t: Id) {
    && p.countWithAncestors(t) == |p.anc(t) + {t}|
    && p.sizeWithAncestors(t) == Sum(p.anc(t) + {t}, p.size)
    && p.sigOpsWithAncestors(t) == Sum(p.anc(t) + {t}, p.sigOps)
    && 0 <= p.weight(t) <= 4 * p.size(t) && 0 <= p.sigOps(t)
  }

  ghost predicate Cached(p: Pool) {
    forall t :: t in p.txs ==> CachedAt(p, t)
  }

  ghost predicate Consistent(p: Pool) {
    Graph(p) && Cached(p)
  }

  /** No member has an ancestor outside the set. */
  ghost predicate Closed(p: Pool, s: set<Id>) {
    s <= p.txs && forall t :: t in s ==> p.anc(t) <= s
  }

  /** What is left to add before `d` can be in the block, `d` included. */
  ghost function Remainder(p: Pool, d: Id, done: set<Id>): set<Id> {
    p.anc(d) - done + {d}
  }

  // ---------------------------------------------------------------- sums

  lemma {:induction false} SumRemove(s: set<Id>, f: Id -> int, x: Id)
    requires x in s
    ensures Sum(s, f) == f(x) + Sum(s - {x}, f)
    decreases |s|
  {
    var y :| y in s && Sum(s, f) == f(y) + Sum(s - {y}, f);
    if y != x {
      SumRemove(s - {y}, f, x);
      SumRemove(s - {x}, f, y);
      assert s - {y} - {x} == s - {x} - {y};
    }
  }

  lemma {:induction false} SumMonotone(s: set<Id>, t: set<Id>, f: Id -> int)
    requires s <= t && forall x :: x in t ==> 0 <= f(x)
    ensures Sum(s, f) <= Sum(t, f)
    decreases |t|
  {
    if s != t {
      var x :| x in t && x !in s;
      SumRemove(t, f, x);
      SumMonotone(s, t - {x}, f);
    }
  }

  lemma {:induction false} WeightWithinSize(p: Pool, s: set<Id>)
    requires Consistent(p) && s <= p.txs
    ensures Sum(s, p.weight) <= 4 * Sum(s, p.size)
    decreases |s|
  {
    if s != {} {
      var x :| x in s;
      SumRemove(s, p.weight, x);
      SumRemove(s, p.size, x);
      assert CachedAt(p, x);
      WeightWithinSize(p, s - {x});
    }
  }

  /** Including an ancestor takes exactly its own share off the remainder. */
  lemma RemainderShrinks(p: Pool, d: Id, done: set<Id>, it: Id, f: Id -> int)
    requires it in p.anc(d) && it !in done && it != d
    ensures Sum(Remainder(p, d, done), f) == f(it) + Sum(Remainder(p, d, done + {it}), f)
  {
    SumRemove(Remainder(p, d, done), f, it);
    assert Remainder(p, d, done) - {it} == Remainder(p, d, done + {it});
  }

  lemma RemainderKept(p: Pool, d: Id, done: set<Id>, it: Id)
    requires it !in p.anc(d)
    ensures Remainder(p, d, done + {it}) == Remainder(p, d, done)
  {
    assert p.anc(d) - (done + {it}) == p.anc(d) - done;
  }

  // ---------------------------------------------------------------- corrected entries

  /** How far the block is filled. */
  datatype Fill = Fill(inBlock: set<Id>, weight: int, sigOps: int, maxWeight: nat)

  /** A candidate turned away: how full the block was, and the totals tested. */
  datatype Refusal = Refusal(tx: Id, at: Fill, totals: Modified)

  /** The last time `d` was turned away. */
  ghost function Last(log: seq<Refusal>, d: Id): Option<Refusal> {
    if log == [] then None
    else if log[|log| - 1].tx == d then Some(log[|log| - 1])
    else Last(log[..|log| - 1], d)
  }

  /** The block as it was when `d` was last turned away; empty if it never was. */
  ghost function Since(log: seq<Refusal>, d: Id): set<Id> {
    match Last(log, d)
    case None => {}
    case Some(r) => r.at.inBlock
  }

  /** The totals are exactly those of `d` with its ancestors outside `done`. */
  ghost predicate Totals(p: Pool, m: Modified, d: Id, done: set<Id>) {
    m.size == Sum(Remainder(p, d, done), p.size) && m.sigOps == Sum(Remainder(p, d, done), p.sigOps)
  }

  /** What the mempool caches for a transaction with all its ancestors. */
  function CachedTotals(p: Pool, d: Id): Modified {
    Modified(p.sizeWithAncestors(d), p.modFeesWithAncestors(d), p.sigOpsWithAncestors(d))
  }

  /**
   * The fees after correction: the first ancestor `f` to be accounted for takes
   * off its modified fee, every other one its plain fee.
   */
  ghost predicate FeesFrom(p: Pool, m: Modified, d: Id, done: set<Id>, f: Id) {
    && f in p.anc(d) && f in done
    && m.modFees == p.modFeesWithAncestors(d) - Sum(p.anc(d) * done, p.fee) - (p.modFee(f) - p.fee(f))
  }

  ghost predicate Fees(p: Pool, m: Modified, d: Id, done: set<Id>) {
    if Stale(p, d, done) then exists f :: FeesFrom(p, m, d, done, f)
    else m.modFees == p.modFeesWithAncestors(d)
  }

  /** Where no fee is modified, the corrected fees are the cached ones less those of the ancestors. */
  lemma PlainFees(p: Pool, m: Modified, d: Id, done: set<Id>)
    requires Fees(p, m, d, done) && forall a :: a in p.anc(d) ==> p.modFee(a) == p.fee(a)
    ensures m.modFees == p.modFeesWithAncestors(d) - Sum(p.anc(d) * done, p.fee)
  {
    if !Stale(p, d, done) { assert p.anc(d) * done == {}; }
  }

  /** `d` has an ancestor among the given transactions. */
  ghost predicate Stale(p: Pool, d: Id, done: set<Id>) {
    exists a :: a in p.anc(d) && a in done
  }

  ghost predicate TrackedAt(p: Pool, mod: map<Id, Modified>, log: seq<Refusal>, added: set<Id>, done: set<Id>, d: Id)
  {
    && (d in mod <==> d in p.txs && d !in added && Stale(p, d, done - Since(log, d)))
    && (d in mod ==> Totals(p, mod[d], d, done - Since(log, d)) && Fees(p, mod[d], d, done - Since(log, d)))
  }

  /**
   * The corrected entries agree with the block. `added` is what the block
   * holds; `done` is the part of it the corrections already account for. An
   * entry exists exactly for the transactions that gained an ancestor in the
   * block since they were last turned away, and has the cached totals less
   * exactly those ancestors.
   */
  ghost predicate Tracks(p: Pool, mod: map<Id, Modified>, log: seq<Refusal>, added: set<Id>, done: set<Id>) {
    forall d: Id :: TrackedAt(p, mod, log, added, done, d)
  }

  /** The entry for `desc` after its ancestor `it` went into the block. */
  function Corrected(p: Pool, mod: map<Id, Modified>, it: Id, desc: Id): Modified {
    if desc in mod then
      Modified(mod[desc].size - p.size(it), mod[desc].modFees - p.fee(it), mod[desc].sigOps - p.sigOps(it))
    else
      Modified(p.sizeWithAncestors(desc) - p.size(it), p.modFeesWithAncestors(desc) - p.modFee(it),
               p.sigOpsWithAncestors(desc) - p.sigOps(it))
  }

  /** All in-mempool descendants of `it`, itself included. */
  function Descendants(p: Pool, it: Id): set<Id> {
    set d | d in p.txs && (d == it || it in p.anc(d))
  }

  ghost predicate CorrectedAt(p: Pool, mod: map<Id, Modified>, now: map<Id, Modified>, it: Id, todo: set<Id>, d: Id) {
    if d in todo
    then d in now && now[d] == Corrected(p, mod, it, d)
    else (d in now <==> d in mod) && (d in mod ==> now[d] == mod[d])
  }

  /** `now` is `mod` with exactly the entries of `todo` corrected for `it`. */
  ghost predicate CorrectedFor(p: Pool, mod: map<Id, Modified>, now: map<Id, Modified>, it: Id, todo: set<Id>) {
    forall d: Id :: CorrectedAt(p, mod, now, it, todo, d)
  }

  /** The cached totals count every ancestor, so they are exact when none is accounted for. */
  lemma FreshIsExact(p: Pool, d: Id, done: set<Id>)
    requires Consistent(p) && d in p.txs && !Stale(p, d, done)
    ensures p.sizeWithAncestors(d) == Sum(Remainder(p, d, done), p.size)
    ensures p.sigOpsWithAncestors(d) == Sum(Remainder(p, d, done), p.sigOps)
  {
    assert CachedAt(p, d);
    assert Remainder(p, d, done) == p.anc(d) + {d};
  }

  /** Totals that leave out fewer ancestors than the block holds never understate what is left. */
  lemma TotalsCover(p: Pool, m: Modified, d: Id, done: set<Id>, inBlock: set<Id>)
    requires Consistent(p) && d in p.txs && done <= inBlock && Totals(p, m, d, done)
    ensures m.size >= Sum(Remainder(p, d, inBlock), p.size)
    ensures m.sigOps >= Sum(Remainder(p, d, inBlock), p.sigOps)
  {
    assert forall t :: t in p.anc(d) + {d} ==> CachedAt(p, t);
    SumMonotone(Remainder(p, d, inBlock), Remainder(p, d, done), p.size);
    SumMonotone(Remainder(p, d, inBlock), Remainder(p, d, done), p.sigOps);
  }

  /** One correction takes off exactly the share of the included ancestor. */
  lemma CorrectionExact(p: Pool, mod: map<Id, Modified>, log: seq<Refusal>, added: set<Id>, done: set<Id>,
                        it: Id, d: Id)
    requires Consistent(p) && d in p.txs && d !in added && it in p.anc(d) && it !in done
    requires TrackedAt(p, mod, log, added, done, d)
    ensures Totals(p, Corrected(p, mod, it, d), d, done - Since(log, d) + {it})
    ensures Fees(p, Corrected(p, mod, it, d), d, done - Since(log, d) + {it})
  {
    hide Consistent, Graph, Cached, CachedAt, Sum, Remainder, Since, Fees;
    var s := done - Since(log, d);
    assert it != d by { assert Graph(p) by { GraphOf(p); } Irreflexive(p, d); }
    RemainderShrinks(p, d, s, it, p.size);
    RemainderShrinks(p, d, s, it, p.sigOps);
    if d !in mod { FreshIsExact(p, d, s); }
    FeesCorrected(p, mod, d, s, it);
  }

  lemma FeesCorrected(p: Pool, mod: map<Id, Modified>, d: Id, s: set<Id>, it: Id)
    requires it in p.anc(d) && it !in s && (d in mod <==> Stale(p, d, s)) && (d in mod ==> Fees(p, mod[d], d, s))
    ensures Fees(p, Corrected(p, mod, it, d), d, s + {it})
  {
    var m, anc := Corrected(p, mod, it, d), p.anc(d);
    SumRemove(anc * (s + {it}), p.fee, it);
    assert anc * (s + {it}) - {it} == anc * s;
    assert Stale(p, d, s + {it}) by { assert it in s + {it}; }
    if d in mod {
      var f :| FeesFrom(p, mod[d], d, s, f);
      assert FeesFrom(p, m, d, s + {it}, f);
    } else {
      assert anc * s == {};
      assert FeesFrom(p, m, d, s + {it}, it);
    }
  }

  lemma GraphOf(p: Pool)
    requires Consistent(p)
    ensures Graph(p)
  {
  }

  lemma Irreflexive(p: Pool, d: Id)
    requires Graph(p) && d in p.txs
    ensures d !in p.anc(d)
  {
  }

  lemma CorrectionAt(p: Pool, mod: map<Id, Modified>, now: map<Id, Modified>, log: seq<Refusal>,
                     before: set<Id>, package: set<Id>, done: set<Id>, it: Id, d: Id)
    requires Consistent(p) && Closed(p, before) && Since(log, d) <= before
    requires it in package && it !in before && it !in done
    requires TrackedAt(p, mod, log, before + package, done, d)
    requires CorrectedAt(p, mod, now, it, Descendants(p, it) - package, d)
    ensures TrackedAt(p, now, log, before + package, done + {it}, d)
  {
    hide Sum, Remainder, Cached, Graph, Since, Totals, Fees;
    var s := done - Since(log, d);
    assert done + {it} - Since(log, d) == s + {it};
    StaleGrows(p, d, s, it);
    if d in p.txs && it in p.anc(d) {
      if d !in package {
        assert d !in before;
        CorrectionExact(p, mod, log, before + package, done, it, d);
      }
    } else {
      NotStaleMore(p, d, s, it);
      if d in mod { TotalsKept(p, mod[d], d, s, it); }
    }
  }

  lemma TotalsKept(p: Pool, m: Modified, d: Id, done: set<Id>, it: Id)
    requires it !in p.anc(d)
    ensures Totals(p, m, d, done) ==> Totals(p, m, d, done + {it})
    ensures Fees(p, m, d, done) ==> Fees(p, m, d, done + {it})
  {
    hide Sum, Remainder;
    RemainderKept(p, d, done, it);
    assert p.anc(d) * (done + {it}) == p.anc(d) * done;
    if Stale(p, d, done) && Fees(p, m, d, done) {
      var f :| FeesFrom(p, m, d, done, f);
      assert FeesFrom(p, m, d, done + {it}, f);
    }
  }

  lemma StaleGrows(p: Pool, d: Id, done: set<Id>, it: Id)
    ensures Stale(p, d, done) ==> Stale(p, d, done + {it})
    ensures it in p.anc(d) ==> Stale(p, d, done + {it})
  {
    if Stale(p, d, done) {
      var a :| a in p.anc(d) && a in done;
      assert a in done + {it};
    }
    assert it in done + {it};
  }

  lemma NotStaleMore(p: Pool, d: Id, done: set<Id>, it: Id)
    ensures Stale(p, d, done + {it}) && it !in p.anc(d) ==> Stale(p, d, done)
  {
  }

  ghost predicate SinceWithin(log: seq<Refusal>, inBlock: set<Id>) {
    forall d: Id :: Since(log, d) <= inBlock
  }

  /** Correcting the descendants of one included transaction accounts for it. */
  lemma CorrectionTracks(p: Pool, mod: map<Id, Modified>, now: map<Id, Modified>, log: seq<Refusal>,
                         before: set<Id>, package: set<Id>, done: set<Id>, it: Id)
    requires Consistent(p) && Closed(p, before) && SinceWithin(log, before)
    requires it in package && it !in before && it !in done
    requires Tracks(p, mod, log, before + package, done)
    requires CorrectedFor(p, mod, now, it, Descendants(p, it) - package)
    ensures Tracks(p, now, log, before + package, done + {it})
  {
    hide Consistent, Closed, TrackedAt, CorrectedAt, Descendants, Since;
    forall d: Id
      ensures TrackedAt(p, now, log, before + package, done + {it}, d)
    {
      CorrectionAt(p, mod, now, log, before, package, done, it, d);
    }
  }

  /** Erasing a package's own entries as it goes into the block. */
  lemma PackageErased(p: Pool, mod: map<Id, Modified>, log: seq<Refusal>, before: set<Id>, package: set<Id>)
    requires Tracks(p, mod, log, before, before)
    ensures Tracks(p, mod - package, log, before + package, before)
  {
    hide Totals, Stale, Since, Fees;
    forall d: Id
      ensures TrackedAt(p, mod - package, log, before + package, before, d)
    {
      assert TrackedAt(p, mod, log, before, before, d);
    }
  }

  lemma LastSnoc(log: seq<Refusal>, r: Refusal, d: Id)
    ensures Last(log + [r], d) == if r.tx == d then Some(r) else Last(log, d)
    ensures Since(log + [r], d) == if r.tx == d then r.at.inBlock else Since(log, d)
  {
    assert (log + [r])[..|log|] == log;
  }

  /** A candidate that is turned away leaves the map and is tracked afresh from then on. */
  lemma RefusalTracks(p: Pool, mod: map<Id, Modified>, log: seq<Refusal>, r: Refusal)
    requires Tracks(p, mod, log, r.at.inBlock, r.at.inBlock)
    ensures Tracks(p, mod - {r.tx}, log + [r], r.at.inBlock, r.at.inBlock)
  {
    hide Totals, Since, Last, Fees;
    forall d: Id
      ensures TrackedAt(p, mod - {r.tx}, log + [r], r.at.inBlock, r.at.inBlock, d)
    {
      assert TrackedAt(p, mod, log, r.at.inBlock, r.at.inBlock, d);
      LastSnoc(log, r, d);
    }
  }

  lemma NothingTracked(p: Pool)
    ensures Tracks(p, map[], [], {}, {})
  {
  }

  /** What is tested for a candidate: its totals less the ancestors added since it was last turned away. */
  lemma CandidateTotals(p: Pool, mod: map<Id, Modified>, log: seq<Refusal>, inBlock: set<Id>, iter: Id, m: Modified)
    requires Consistent(p) && iter in p.txs && iter !in inBlock
    requires Tracks(p, mod, log, inBlock, inBlock)
    requires iter in mod ==> m == mod[iter]
    requires iter !in mod ==> m == CachedTotals(p, iter)
    ensures Totals(p, m, iter, inBlock - Since(log, iter))
    ensures Fees(p, m, iter, inBlock - Since(log, iter))
  {
    hide Sum, Remainder, Consistent, Since;
    assert TrackedAt(p, mod, log, inBlock, inBlock, iter);
    if iter !in mod { FreshIsExact(p, iter, inBlock - Since(log, iter)); }
  }

  // ---------------------------------------------------------------- package order

  /** A transaction has strictly more ancestors than each of its ancestors. */
  lemma AncestorCountsLess(p: Pool, t: Id, a: Id)
    requires Consistent(p) && t in p.txs && a in p.anc(t)
    ensures p.countWithAncestors(a) < p.countWithAncestors(t)
  {
    hide Sum;
    assert CachedAt(p, t) && CachedAt(p, a);
    var s, u := p.anc(a) + {a}, p.anc(t) + {t};
    assert s <= u && t in u && t !in s;
    Smaller(s, u - {t});
    assert |u - {t}| == |u| - 1;
  }

  lemma {:induction false} Smaller(s: set<Id>, u: set<Id>)
    requires s <= u
    ensures |s| <= |u|
    decreases |s|
  {
    if s != {} {
      var x :| x in s;
      Smaller(s - {x}, u - {x});
    }
  }

  ghost predicate Distinct(s: seq<Id>) {
    forall i, j :: 0 <= i < j < |s| ==> s[i] != s[j]
  }

  ghost predicate SortedByCount(p: Pool, s: seq<Id>) {
    forall i, j :: 0 <= i <= j < |s| ==> p.countWithAncestors(s[i]) <= p.countWithAncestors(s[j])
  }

  ghost function Elements(s: seq<Id>): set<Id> {
    set t | t in s
  }

  ghost function Total(s: seq<Id>, f: Id -> int): int {
    if s == [] then 0 else Total(s[..|s| - 1], f) + f(s[|s| - 1])
  }

  /** Every in-mempool ancestor comes earlier. */
  ghost predicate AncestorsFirst(p: Pool, s: seq<Id>) {
    forall i, a :: 0 <= i < |s| && a in p.anc(s[i]) ==> a in s[..i]
  }

  /** A block template's transaction list. */
  ghost predicate Template(p: Pool, s: seq<Id>) {
    Elements(s) <= p.txs && Distinct(s) && AncestorsFirst(p, s)
  }

  lemma TemplateClosed(p: Pool, s: seq<Id>)
    requires Template(p, s)
    ensures Closed(p, Elements(s))
  {
    forall t | t in Elements(s)
      ensures p.anc(t) <= Elements(s)
    {
      var i :| 0 <= i < |s| && s[i] == t;
      forall a | a in p.anc(t)
        ensures a in s
      {
        assert a in s[..i];
      }
    }
  }

  lemma TemplateExtend(p: Pool, s: seq<Id>, t: Id)
    requires Template(p, s) && t in p.txs && t !in s && p.anc(t) <= Elements(s)
    ensures Template(p, s + [t])
    ensures Elements(s + [t]) == Elements(s) + {t}
  {
    var u := s + [t];
    assert forall i :: 0 <= i < |s| ==> u[..i] == s[..i];
    assert u[..|s|] == s;
    assert Elements(u) == Elements(s) + {t};
  }

  lemma TotalExtend(s: seq<Id>, t: Id, f: Id -> int)
    ensures Total(s + [t], f) == Total(s, f) + f(t)
  {
    assert (s + [t])[..|s|] == s;
  }

  /** In a package sorted by ancestor count each member finds its missing ancestors before it. */
  lemma SortedPackageReady(p: Pool, inBlock: set<Id>, iter: Id, sorted: seq<Id>, k: nat)
    requires Consistent(p) && iter in p.txs && Closed(p, inBlock)
    requires k < |sorted| && SortedByCount(p, sorted) && Elements(sorted) == Remainder(p, iter, inBlock)
    ensures sorted[k] in p.txs
    ensures p.anc(sorted[k]) <= inBlock + Elements(sorted[..k])
  {
    hide Sum, Cached, CachedAt;
    var t := sorted[k];
    assert t in Elements(sorted);
    forall a | a in p.anc(t) && a !in inBlock
      ensures a in sorted[..k]
    {
      assert a in p.anc(iter);
      assert a in Elements(sorted);
      var j :| 0 <= j < |sorted| && sorted[j] == a;
      AncestorCountsLess(p, t, a);
    }
  }
}
