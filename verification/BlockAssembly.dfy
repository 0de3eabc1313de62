/**
 * The block assembler: selects packages of mempool transactions, keeping the
 * template ordered and within the weight and signature-operation limits.
 */
module BlockAssembly {
  import opened MinerPackages
  import opened Options

  const MAX_BLOCK_WEIGHT: nat := 6000000
  const MAX_BLOCK_SIGOPS_COST: nat := 80000
  const WITNESS_SCALE_FACTOR: nat := 4
  const MAX_CONSECUTIVE_FAILURES: nat := 1000

  /** What becomes of the candidate package of one round. */
  datatype Verdict = Stop | Fail | Reject | Accept

  /**
   * Adding a package whose tested totals cover it keeps the block below both
   * limits: sizes count four weight units each.
   */
  lemma PackageFits(p: Pool, package: set<Id>, packageSize: int, weight: int, maxWeight: nat)
    requires Consistent(p) && package <= p.txs
    requires packageSize >= Sum(package, p.size)
    requires weight + WITNESS_SCALE_FACTOR * packageSize < maxWeight
    ensures weight + Sum(package, p.weight) < maxWeight
  {
    WeightWithinSize(p, package);
  }

  /** Whether totals of a package still fit below both limits. */
  predicate Fits(weight: int, sigOps: int, maxWeight: nat, packageSize: int, packageSigOps: int) {
    weight + WITNESS_SCALE_FACTOR * packageSize < maxWeight && sigOps + packageSigOps < MAX_BLOCK_SIGOPS_COST
  }

  /** How the selection loop came to an end. */
  datatype Outcome = Exhausted | BelowMinFee | NearlyFull

  /** Whether one filling state comes before another. */
  ghost predicate Below(a: Fill, b: Fill) {
    a.inBlock <= b.inBlock && a.weight <= b.weight && a.sigOps <= b.sigOps && a.maxWeight == b.maxWeight
  }

  /** The block has no place for `d`: something it needs may not be included, or the totals do not fit. */
  ghost predicate NoPlace(p: Pool, includable: Id -> bool, b: Fill, d: Id, totals: Modified) {
    || (exists x :: x in Remainder(p, d, b.inBlock) && !includable(x))
    || !Fits(b.weight, b.sigOps, b.maxWeight, totals.size, totals.sigOps)
  }

  /**
   * A refusal after the earlier ones in `log`: the block had no place for the
   * totals tested, which were those of the transaction and its ancestors less
   * the ancestors added since it was last turned away. They are exact when
   * that never happened before.
   */
  ghost predicate RefusalOk(p: Pool, includable: Id -> bool, log: seq<Refusal>, r: Refusal) {
    && Totals(p, r.totals, r.tx, r.at.inBlock - Since(log, r.tx))
    && NoPlace(p, includable, r.at, r.tx, r.totals)
  }

  ghost predicate LogOk(p: Pool, includable: Id -> bool, log: seq<Refusal>) {
    log == [] ||
    (LogOk(p, includable, log[..|log| - 1]) && RefusalOk(p, includable, log[..|log| - 1], log[|log| - 1]))
  }

  ghost predicate LogBelow(log: seq<Refusal>, b: Fill) {
    forall k :: 0 <= k < |log| ==> Below(log[k].at, b)
  }

  /**
   * `d` was turned away, gained no ancestor in the block since, and the block
   * still has no place for the totals tested then.
   */
  ghost predicate Refused(p: Pool, includable: Id -> bool, b: Fill, log: seq<Refusal>, d: Id) {
    && Last(log, d).Some?
    && var r := Last(log, d).value;
       Below(r.at, b) && !Stale(p, d, b.inBlock - r.at.inBlock) && NoPlace(p, includable, b, d, r.totals)
  }

  lemma LogSnoc(p: Pool, includable: Id -> bool, log: seq<Refusal>, r: Refusal)
    requires LogOk(p, includable, log) && RefusalOk(p, includable, log, r)
    ensures LogOk(p, includable, log + [r])
  {
    assert (log + [r])[..|log|] == log;
  }

  lemma {:induction false} LastInLog(p: Pool, includable: Id -> bool, log: seq<Refusal>, d: Id)
    requires LogOk(p, includable, log) && Last(log, d).Some?
    ensures var r := Last(log, d).value; r in log && r.tx == d && NoPlace(p, includable, r.at, d, r.totals)
  {
    hide NoPlace, Totals, Since;
    if log[|log| - 1].tx != d { LastInLog(p, includable, log[..|log| - 1], d); }
  }

  lemma {:induction false} SinceBelow(log: seq<Refusal>, b: Fill, d: Id)
    requires LogBelow(log, b)
    ensures Since(log, d) <= b.inBlock
  {
    if log != [] && log[|log| - 1].tx != d {
      SinceBelow(log[..|log| - 1], b, d);
      assert Since(log, d) == Since(log[..|log| - 1], d);
    }
  }

  /** A block that has grown, without the ancestors of `d`, has no more place for it than before. */
  lemma NoPlaceStays(p: Pool, includable: Id -> bool, a: Fill, b: Fill, d: Id, totals: Modified)
    requires NoPlace(p, includable, a, d, totals) && Below(a, b) && !Stale(p, d, b.inBlock - a.inBlock)
    ensures Remainder(p, d, b.inBlock) == Remainder(p, d, a.inBlock)
    ensures NoPlace(p, includable, b, d, totals)
  {
    assert p.anc(d) - b.inBlock == p.anc(d) - a.inBlock;
  }

  /** A transaction left out with nothing queued any more is refused. */
  lemma LeftOut(p: Pool, includable: Id -> bool, b: Fill, log: seq<Refusal>, d: Id)
    requires LogOk(p, includable, log) && LogBelow(log, b) && Tracks(p, map[], log, b.inBlock, b.inBlock)
    requires d in p.txs && d !in b.inBlock && Last(log, d).Some?
    ensures Refused(p, includable, b, log, d)
  {
    hide NoPlace, LogOk, Totals, Last, Stale;
    assert TrackedAt(p, map[], log, b.inBlock, b.inBlock, d);
    LastInLog(p, includable, log, d);
    var r := Last(log, d).value;
    NoPlaceStays(p, includable, r.at, b, d, r.totals);
  }

  /**
   * A transaction turned away only once is left out for its exact totals: what
   * is left of its package does not fit in the final block.
   */
  lemma SoleRefusalExact(p: Pool, includable: Id -> bool, b: Fill, log: seq<Refusal>, d: Id, k: nat)
    requires LogOk(p, includable, log) && Refused(p, includable, b, log, d)
    requires k < |log| && log[k].tx == d && forall j :: 0 <= j < |log| && j != k ==> log[j].tx != d
    ensures
      || (exists x :: x in Remainder(p, d, b.inBlock) && !includable(x))
      || b.weight + 4 * Sum(Remainder(p, d, b.inBlock), p.size) >= b.maxWeight
      || b.sigOps + Sum(Remainder(p, d, b.inBlock), p.sigOps) >= 80000
  {
    hide Stale, Sum, Remainder, Below, LogOk;
    SoleRefusal(p, includable, log, d, k);
    var r := log[k];
    assert Totals(p, r.totals, d, r.at.inBlock) by { assert r.at.inBlock - {} == r.at.inBlock; }
    NoPlaceStays(p, includable, r.at, b, d, r.totals) by { LastInLog(p, includable, log, d); }
  }

  lemma {:induction false} SoleRefusal(p: Pool, includable: Id -> bool, log: seq<Refusal>, d: Id, k: nat)
    requires LogOk(p, includable, log)
    requires k < |log| && log[k].tx == d && forall j :: 0 <= j < |log| && j != k ==> log[j].tx != d
    ensures Last(log, d) == Some(log[k]) && Totals(p, log[k].totals, d, log[k].at.inBlock - {})
  {
    hide NoPlace, Totals;
    var n := |log| - 1;
    if k < n {
      SoleRefusal(p, includable, log[..n], d, k);
    } else {
      NeverRefused(log[..n], d);
    }
  }

  lemma {:induction false} NeverRefused(log: seq<Refusal>, d: Id)
    requires forall j :: 0 <= j < |log| ==> log[j].tx != d
    ensures Last(log, d) == None && Since(log, d) == {}
  {
    if log != [] { NeverRefused(log[..|log| - 1], d); }
  }

  /** Every transaction looked at so far is in the block, queued to be retried, or was turned away. */
  ghost predicate AllSettled(inBlock: set<Id>, log: seq<Refusal>, mod: map<Id, Modified>, seen: set<Id>) {
    forall d :: d in seen ==> d in inBlock || d in mod || Last(log, d).Some?
  }

  /** Whoever was queued is in the block or still queued after a package went in. */
  lemma QueuedStays(p: Pool, mod: map<Id, Modified>, now: map<Id, Modified>, log: seq<Refusal>,
                    before: set<Id>, package: set<Id>, d: Id)
    requires Tracks(p, mod, log, before, before) && Tracks(p, now, log, before + package, before + package)
    requires d in mod
    ensures d in package || d in now
  {
    hide Totals, Since;
    assert TrackedAt(p, mod, log, before, before, d);
    assert TrackedAt(p, now, log, before + package, before + package, d);
    var a :| a in p.anc(d) && a in before - Since(log, d);
    assert a in before + package - Since(log, d);
  }

  lemma AllSettledStay(p: Pool, mod: map<Id, Modified>, now: map<Id, Modified>, log: seq<Refusal>,
                       before: set<Id>, package: set<Id>, seen: set<Id>)
    requires Tracks(p, mod, log, before, before) && Tracks(p, now, log, before + package, before + package)
    requires AllSettled(before, log, mod, seen)
    ensures AllSettled(before + package, log, now, seen + package)
  {
    hide Tracks, Last;
    forall d | d in seen + package
      ensures d in before + package || d in now || Last(log, d).Some?
    {
      if d in seen && d in mod { QueuedStays(p, mod, now, log, before, package, d); }
    }
  }

  // ---------------------------------------------------------------- rounds of the selection

  /** `ahead(a, b)`: candidate `a` scores better than `b`. Not scoring better is transitive. */
  ghost predicate WeakOrder(ahead: (Candidate, Candidate) -> bool) {
    && (forall a, b :: ahead(a, b) ==> !ahead(b, a))
    && (forall a, b, c :: !ahead(b, a) && !ahead(c, b) ==> !ahead(c, a))
  }

  function Fresh(p: Pool, t: Id): Candidate {
    Candidate(t, CachedTotals(p, t))
  }

  /** The mempool's index: best cached score first. */
  ghost predicate InOrder(p: Pool, ahead: (Candidate, Candidate) -> bool, order: seq<Id>) {
    forall i, j :: 0 <= i < j < |order| ==> !ahead(Fresh(p, order[j]), Fresh(p, order[i]))
  }

  /**
   * One round: the candidate chosen and what became of it, with the corrected
   * entries, the number of mempool entries read and the block at that time.
   */
  datatype Round = Round(choice: Candidate, queue: map<Id, Modified>, read: nat, at: set<Id>, verdict: Verdict)

  /** The choice is a corrected entry or the last mempool entry read, and nothing queued or unread scores better. */
  ghost predicate BestAmong(p: Pool, ahead: (Candidate, Candidate) -> bool, order: seq<Id>,
                            choice: Candidate, queue: map<Id, Modified>, read: nat)
  {
    && read <= |order|
    && (if choice.tx in queue then choice.totals == queue[choice.tx]
        else read > 0 && order[read - 1] == choice.tx && choice == Fresh(p, choice.tx))
    && (forall t :: t in queue ==> !ahead(Candidate(t, queue[t]), choice))
    && (forall j :: read <= j < |order| ==> !ahead(Fresh(p, order[j]), choice))
  }

  /**
   * Every round took the best candidate and stopped exactly at one that pays too
   * little, and the block is what the accepted packages add up to.
   */
  ghost predicate Played(p: Pool, ahead: (Candidate, Candidate) -> bool, minFee: int -> int, order: seq<Id>,
                         rounds: seq<Round>, inBlock: set<Id>)
  {
    if rounds == [] then inBlock == {} else
      var n := |rounds| - 1;
      var r := rounds[n];
      && Played(p, ahead, minFee, order, rounds[..n], r.at)
      && (r.verdict.Stop? <==> r.choice.totals.modFees < minFee(r.choice.totals.size))
      && BestAmong(p, ahead, order, r.choice, r.queue, r.read)
      && inBlock == if r.verdict.Accept? then r.at + Remainder(p, r.choice.tx, r.at) else r.at
  }

  function Selected(rounds: seq<Round>): nat {
    if rounds == [] then 0 else
      Selected(rounds[..|rounds| - 1]) + if rounds[|rounds| - 1].verdict.Accept? then 1 else 0
  }

  lemma PlayedSnoc(p: Pool, ahead: (Candidate, Candidate) -> bool, minFee: int -> int, order: seq<Id>,
                   rounds: seq<Round>, r: Round)
    requires r.verdict.Stop? <==> r.choice.totals.modFees < minFee(r.choice.totals.size)
    requires Played(p, ahead, minFee, order, rounds, r.at) && BestAmong(p, ahead, order, r.choice, r.queue, r.read)
    ensures Played(p, ahead, minFee, order, rounds + [r],
                   if r.verdict.Accept? then r.at + Remainder(p, r.choice.tx, r.at) else r.at)
    ensures Selected(rounds + [r]) == Selected(rounds) + if r.verdict.Accept? then 1 else 0
  {
    hide BestAmong, Remainder;
    assert (rounds + [r])[..|rounds|] == rounds;
  }

  /** Candidates turned away for their size while the block was as full as `b`. */
  ghost function TooBig(log: seq<Refusal>, b: Fill): nat {
    if log == [] then 0 else
      var r := log[|log| - 1];
      TooBig(log[..|log| - 1], b)
      + if r.at == b && (b.weight + 4 * r.totals.size >= b.maxWeight || b.sigOps + r.totals.sigOps >= 80000)
        then 1 else 0
  }

  lemma TooBigSnoc(log: seq<Refusal>, r: Refusal, b: Fill)
    requires r.at == b
    ensures TooBig(log + [r], b)
         == TooBig(log, b) + if Fits(b.weight, b.sigOps, b.maxWeight, r.totals.size, r.totals.sigOps) then 0 else 1
  {
    assert (log + [r])[..|log|] == log;
  }

  lemma {:induction false} TooBigReset(log: seq<Refusal>, a: Fill, b: Fill, x: Id)
    requires LogBelow(log, a) && x in b.inBlock && x !in a.inBlock
    ensures TooBig(log, b) == 0
  {
    if log != [] {
      TooBigReset(log[..|log| - 1], a, b, x);
    }
  }

  /**
   * The loop stopped at a candidate that does not pay the minimum for its size.
   * Its totals and fees are exact for what was tracked, and every mempool
   * entry read before it is in the block, queued, or was turned away.
   */
  ghost predicate StoppedAt(p: Pool, minFee: int -> int, order: seq<Id>, inBlock: set<Id>,
                            log: seq<Refusal>, r: Round)
  {
    var d, m := r.choice.tx, r.choice.totals;
    && r.verdict.Stop? && d in p.txs && d !in inBlock && r.at == inBlock && r.read <= |order|
    && m.modFees < minFee(m.size)
    && Totals(p, m, d, inBlock - Since(log, d)) && Fees(p, m, d, inBlock - Since(log, d))
    && forall t :: t in order[..r.read] && t != d ==> t in inBlock || t in r.queue || Last(log, t).Some?
  }

  lemma PackageInPool(p: Pool, iter: Id, inBlock: set<Id>)
    requires Consistent(p) && iter in p.txs && iter !in inBlock
    ensures Remainder(p, iter, inBlock) <= p.txs
    ensures Remainder(p, iter, inBlock) !! inBlock
    ensures iter in Remainder(p, iter, inBlock)
  {
  }

  /** Sorts a package by ancestor count; ties come in any order. */
  method SortForBlock(p: Pool, package: set<Id>) returns (sorted: seq<Id>)
    ensures Elements(sorted) == package && Distinct(sorted) && SortedByCount(p, sorted)
  {
    sorted := [];
    var left := package;
    while left != {}
      invariant left !! Elements(sorted) && left + Elements(sorted) == package
      invariant Distinct(sorted) && SortedByCount(p, sorted)
      invariant forall s, t :: s in sorted && t in left ==> p.countWithAncestors(s) <= p.countWithAncestors(t)
      decreases left
    {
      var least := Least(p, left);
      sorted, left := sorted + [least], left - {least};
    }
  }

  method Least(p: Pool, s: set<Id>) returns (least: Id)
    requires s != {}
    ensures least in s && forall t :: t in s ==> p.countWithAncestors(least) <= p.countWithAncestors(t)
  {
    least :| least in s;
    var left := s - {least};
    while left != {}
      invariant left <= s && least in s
      invariant forall t :: t in s - left ==> p.countWithAncestors(least) <= p.countWithAncestors(t)
      decreases left
    {
      var t :| t in left;
      if p.countWithAncestors(t) < p.countWithAncestors(least) { least := t; }
      left := left - {t};
    }
  }

  /** Corrects every descendant of `it` outside the package just added. */
  method UpdateDescendants(p: Pool, package: set<Id>, mod: map<Id, Modified>, it: Id)
    returns (now: map<Id, Modified>, updated: nat)
    ensures CorrectedFor(p, mod, now, it, Descendants(p, it) - package)
    ensures updated == |Descendants(p, it) - package|
  {
    hide Corrected, Descendants, CorrectedAt, CorrectedFor;
    CorrectedStart(p, mod, it);
    now, updated := mod, 0;
    var left := Descendants(p, it) - package;
    ghost var all, done := left, {};
    while left != {}
      invariant left !! done && done + left == all && updated == |done|
      invariant CorrectedFor(p, mod, now, it, done)
      decreases left
    {
      var desc :| desc in left;
      CorrectedStep(p, mod, now, it, done, desc);
      now := now[desc := Corrected(p, now, it, desc)];
      left, done, updated := left - {desc}, done + {desc}, updated + 1;
    }
    assert done == all;
  }

  lemma CorrectedStart(p: Pool, mod: map<Id, Modified>, it: Id)
    ensures CorrectedFor(p, mod, mod, it, {})
  {
  }

  lemma CorrectedStep(p: Pool, mod: map<Id, Modified>, was: map<Id, Modified>, it: Id, done: set<Id>, desc: Id)
    requires CorrectedFor(p, mod, was, it, done) && desc !in done
    ensures CorrectedFor(p, mod, was[desc := Corrected(p, was, it, desc)], it, done + {desc})
  {
    var now := was[desc := Corrected(p, was, it, desc)];
    assert CorrectedAt(p, mod, was, it, done, desc);
    forall d: Id
      ensures CorrectedAt(p, mod, now, it, done + {desc}, d)
    {
      assert CorrectedAt(p, mod, was, it, done, d);
    }
  }

  /** How many entries each transaction of the package corrects. */
  function UpdatesOf(p: Pool, package: set<Id>): Id -> int {
    it => |Descendants(p, it) - package|
  }

  /**
   * Accounts for every transaction of a package that has just gone into the
   * block: afterwards the corrected entries agree with the whole block.
   */
  method UpdatePackagesForAdded(p: Pool, package: set<Id>, mod: map<Id, Modified>,
                                ghost log: seq<Refusal>, ghost before: set<Id>)
    returns (now: map<Id, Modified>, updated: int)
    requires Consistent(p) && Closed(p, before) && package !! before && SinceWithin(log, before)
    requires Tracks(p, mod, log, before + package, before)
    ensures Tracks(p, now, log, before + package, before + package)
    ensures updated == Sum(package, UpdatesOf(p, package))
  {
    hide Consistent, Closed, Tracks, CorrectedFor, Parts, SinceWithin, Sum, Descendants;
    now, updated := mod, 0;
    var left := package;
    ghost var done, part: set<Id> := before, {};
    PartsStart(before, package);
    SumNone(UpdatesOf(p, package));
    while left != {}
      invariant Parts(before, package, done, part, left)
      invariant Tracks(p, now, log, before + package, done)
      invariant updated == Sum(part, UpdatesOf(p, package))
      decreases left
    {
      var it :| it in left;
      PartsStep(before, package, done, part, left, it);
      SumExtend(part, it, UpdatesOf(p, package));
      var was := now;
      var n;
      now, n := UpdateDescendants(p, package, was, it);
      CorrectionTracks(p, was, now, log, before, package, done, it);
      left, done, part, updated := left - {it}, done + {it}, part + {it}, updated + n;
    }
    PartsEnd(before, package, done, part);
  }

  lemma SumNone(f: Id -> int)
    ensures Sum({}, f) == 0
  {
  }

  /** A package split into the part accounted for and the part left. */
  ghost predicate Parts(before: set<Id>, package: set<Id>, done: set<Id>, part: set<Id>, left: set<Id>) {
    left <= package && left !! done && left !! part && done + left == before + package && part + left == package
  }

  lemma PartsStart(before: set<Id>, package: set<Id>)
    requires before !! package
    ensures Parts(before, package, before, {}, package)
  {
  }

  lemma PartsStep(before: set<Id>, package: set<Id>, done: set<Id>, part: set<Id>, left: set<Id>, it: Id)
    requires Parts(before, package, done, part, left) && before !! package && it in left
    ensures Parts(before, package, done + {it}, part + {it}, left - {it})
    ensures it in package && it !in done && it !in part && it !in before
  {
  }

  lemma PartsEnd(before: set<Id>, package: set<Id>, done: set<Id>, part: set<Id>)
    requires Parts(before, package, done, part, {})
    ensures done == before + package && part == package
  {
  }

  /** `column` gives each listed transaction's own value. */
  ghost predicate Lists(f: Id -> int, txs: seq<Id>, column: seq<int>) {
    |column| == |txs| && forall i :: 0 <= i < |txs| ==> column[i] == f(txs[i])
  }

  lemma ListsExtend(f: Id -> int, txs: seq<Id>, column: seq<int>, t: Id)
    requires Lists(f, txs, column)
    ensures Lists(f, txs + [t], column + [f(t)])
  {
  }

  class BlockAssembler {
    const pool: Pool
    const nBlockMaxWeight: nat
    /** Whether a transaction is final and carries no premature witness. */
    const includable: Id -> bool
    /** The fee a package of the given size must pay. */
    const minFee: int -> int
    /** The order of ancestor scores. */
    const ahead: (Candidate, Candidate) -> bool
    var inBlock: set<Id>
    var nBlockWeight: int
    var nBlockSigOpsCost: int
    var nBlockTx: nat
    var nFees: int
    var vtx: seq<Id>
    var vTxFees: seq<int>
    var vTxSigOpsCost: seq<int>

    /** The template is ordered and the running totals are those of its transactions. */
    ghost predicate Valid()
      reads this
    {
      && Consistent(pool)
      && Template(pool, vtx) && inBlock == Elements(vtx)
      && nBlockTx == |vtx|
      && nBlockWeight == 4000 + Total(vtx, pool.weight)
      && nBlockSigOpsCost == 400 + Total(vtx, pool.sigOps)
      && nFees == Total(vtx, pool.fee)
      && Lists(pool.fee, vtx, vTxFees) && Lists(pool.sigOps, vtx, vTxSigOpsCost)
    }

    ghost predicate WithinLimits()
      reads this
    {
      nBlockWeight <= nBlockMaxWeight <= MAX_BLOCK_WEIGHT - 4000 && nBlockSigOpsCost < MAX_BLOCK_SIGOPS_COST
    }

    /** Clamps the weight limit and starts an empty template with the coinbase reserve. */
    constructor (pool: Pool, maxWeight: nat, includable: Id -> bool, minFee: int -> int,
                 ahead: (Candidate, Candidate) -> bool)
      requires Consistent(pool)
      ensures Valid() && WithinLimits() && vtx == []
      ensures this.pool == pool && this.includable == includable && this.minFee == minFee && this.ahead == ahead
      ensures maxWeight < 4000 ==> nBlockMaxWeight == 4000
      ensures 4000 <= maxWeight <= 5996000 ==> nBlockMaxWeight == maxWeight
      ensures maxWeight > 5996000 ==> nBlockMaxWeight == 5996000
    {
      this.pool, this.includable, this.minFee, this.ahead := pool, includable, minFee, ahead;
      var top := MAX_BLOCK_WEIGHT - 4000;
      var low := if top < maxWeight then top else maxWeight;
      this.nBlockMaxWeight := if 4000 < low then low else 4000;
      inBlock, nBlockWeight, nBlockSigOpsCost, nBlockTx, nFees := {}, 4000, 400, 0, 0;
      vtx, vTxFees, vTxSigOpsCost := [], [], [];
    }

    predicate TestPackage(packageSize: int, packageSigOpsCost: int)
      reads this
    {
      Fits(nBlockWeight, nBlockSigOpsCost, nBlockMaxWeight, packageSize, packageSigOpsCost)
    }

    ghost function Filled(): Fill
      reads this
    {
      Fill(inBlock, nBlockWeight, nBlockSigOpsCost, nBlockMaxWeight)
    }

    /** Keeps only the transactions not already in the block. */
    method OnlyUnconfirmed(testSet: set<Id>) returns (kept: set<Id>)
      ensures kept == testSet - inBlock
    {
      kept := testSet;
      var left := testSet;
      while left != {}
        invariant left <= testSet && kept == (testSet - inBlock) + left
        decreases left
      {
        var t :| t in left;
        if t in inBlock { kept := kept - {t}; }
        left := left - {t};
      }
    }

    method TestPackageTransactions(package: set<Id>) returns (ok: bool)
      ensures ok <==> forall t :: t in package ==> includable(t)
    {
      var left := package;
      while left != {}
        invariant left <= package && forall t :: t in package - left ==> includable(t)
        decreases left
      {
        var t :| t in left;
        if !includable(t) { return false; }
        left := left - {t};
      }
      return true;
    }

    method AddToBlock(iter: Id)
      requires Valid() && iter in pool.txs && iter !in inBlock && pool.anc(iter) <= inBlock
      modifies this
      ensures Valid() && vtx == old(vtx) + [iter] && inBlock == old(inBlock) + {iter}
      ensures nBlockWeight == old(nBlockWeight) + pool.weight(iter)
      ensures nBlockSigOpsCost == old(nBlockSigOpsCost) + pool.sigOps(iter)
    {
      hide Total, Template, Elements, Consistent, Lists;
      assert iter !in vtx by { InElements(iter, vtx); }
      TemplateExtend(pool, vtx, iter);
      TotalExtend(vtx, iter, pool.weight);
      TotalExtend(vtx, iter, pool.sigOps);
      TotalExtend(vtx, iter, pool.fee);
      ListsExtend(pool.fee, vtx, vTxFees, iter);
      ListsExtend(pool.sigOps, vtx, vTxSigOpsCost, iter);
      vtx, vTxFees, vTxSigOpsCost := vtx + [iter], vTxFees + [pool.fee(iter)], vTxSigOpsCost + [pool.sigOps(iter)];
      nBlockWeight, nBlockTx := nBlockWeight + pool.weight(iter), nBlockTx + 1;
      nBlockSigOpsCost, nFees := nBlockSigOpsCost + pool.sigOps(iter), nFees + pool.fee(iter);
      inBlock := inBlock + {iter};
    }

    /** Appends a sorted package, one transaction at a time, and erases its entries. */
    method AddPackage(iter: Id, sorted: seq<Id>, mod: map<Id, Modified>) returns (now: map<Id, Modified>)
      requires Valid() && iter in pool.txs && iter !in inBlock
      requires Elements(sorted) == Remainder(pool, iter, inBlock) && Distinct(sorted) && SortedByCount(pool, sorted)
      modifies this
      ensures Valid() && vtx == old(vtx) + sorted && inBlock == old(inBlock) + Elements(sorted)
      ensures nBlockWeight == old(nBlockWeight) + Sum(Elements(sorted), pool.weight)
      ensures nBlockSigOpsCost == old(nBlockSigOpsCost) + Sum(Elements(sorted), pool.sigOps)
      ensures now == mod - Elements(sorted)
    {
      hide Sum, Template, Consistent, SortedByCount, Total, Elements;
      ghost var before := inBlock;
      assert Closed(pool, before) by { TemplateClosed(pool, vtx); }
      PackageInPool(pool, iter, before);
      now := mod;
      NoElements(sorted);
      for i := 0 to |sorted|
        invariant Valid() && vtx == old(vtx) + sorted[..i] && inBlock == before + Elements(sorted[..i])
        invariant nBlockWeight == old(nBlockWeight) + Sum(Elements(sorted[..i]), pool.weight)
        invariant nBlockSigOpsCost == old(nBlockSigOpsCost) + Sum(Elements(sorted[..i]), pool.sigOps)
        invariant now == mod - Elements(sorted[..i])
      {
        SortedPackageReady(pool, before, iter, sorted, i);
        ElementsStep(sorted, i, before);
        SumExtend(Elements(sorted[..i]), sorted[i], pool.weight);
        SumExtend(Elements(sorted[..i]), sorted[i], pool.sigOps);
        AddToBlock(sorted[i]);
        now := now - {sorted[i]};
        assert sorted[..i + 1] == sorted[..i] + [sorted[i]];
      }
      assert sorted[..|sorted|] == sorted;
    }

    /** One round's decision about a candidate with the given tested totals. */
    method Judge(iter: Id, packageSize: int, packageFees: int, packageSigOpsCost: int)
      returns (verdict: Verdict, package: set<Id>)
      ensures verdict.Stop? <==> packageFees < minFee(packageSize)
      ensures verdict.Fail? <==> packageFees >= minFee(packageSize) && !TestPackage(packageSize, packageSigOpsCost)
      ensures verdict.Accept? ==> TestPackage(packageSize, packageSigOpsCost)
      ensures verdict.Accept? ==>
        package == Remainder(pool, iter, inBlock) && forall t :: t in package ==> includable(t)
      ensures verdict.Reject? ==> exists t :: t in Remainder(pool, iter, inBlock) && !includable(t)
    {
      package := {};
      if packageFees < minFee(packageSize) { return Stop, package; }
      if !TestPackage(packageSize, packageSigOpsCost) { return Fail, package; }
      package := OnlyUnconfirmed(pool.anc(iter));
      package := package + {iter};
      var ok := TestPackageTransactions(package);
      verdict := if ok then Accept else Reject;
    }

    /** The best of the corrected entries. */
    method BestModified(mod: map<Id, Modified>) returns (best: Id)
      requires mod != map[] && WeakOrder(ahead)
      ensures best in mod
      ensures forall t :: t in mod ==> !ahead(Candidate(t, mod[t]), Candidate(best, mod[best]))
    {
      assert mod.Keys != {};
      best :| best in mod.Keys;
      var left := mod.Keys - {best};
      while left != {}
        invariant left <= mod.Keys && best in mod
        invariant forall t :: t in mod.Keys - left ==> !ahead(Candidate(t, mod[t]), Candidate(best, mod[best]))
        decreases left
      {
        var t :| t in left;
        if ahead(Candidate(t, mod[t]), Candidate(best, mod[best])) { best := t; }
        left := left - {t};
      }
    }

    /** The best corrected entry if it beats the next mempool entry, otherwise that one. */
    method Choose(order: seq<Id>, mi: nat, mod: map<Id, Modified>)
      returns (iter: Id, usingModified: bool, totals: Modified)
      requires WeakOrder(ahead) && InOrder(pool, ahead, order)
      requires mi <= |order| && (mi < |order| || mod != map[]) && (mi < |order| ==> order[mi] !in mod)
      ensures if usingModified then iter in mod else mi < |order| && iter == order[mi]
      ensures totals == if usingModified then mod[iter] else CachedTotals(pool, iter)
      ensures BestAmong(pool, ahead, order, Candidate(iter, totals), mod, if usingModified then mi else mi + 1)
    {
      if mod == map[] {
        iter, usingModified := order[mi], false;
      } else {
        iter := BestModified(mod);
        usingModified := mi == |order| || ahead(Candidate(iter, mod[iter]), Fresh(pool, order[mi]));
        if !usingModified { iter := order[mi]; }
      }
      totals := if usingModified then mod[iter] else CachedTotals(pool, iter);
    }

    /**
     * The selection loop. `order` is the mempool's score order. `rounds` is the
     * whole run: each round takes the best candidate there is, and the accepted
     * packages make up the block. `log` lists the candidates turned away. The
     * loop ends when every transaction left out is one the block still has no
     * place for; or at a best candidate that pays too little; or with the block
     * nearly full, after more than a thousand misfits in a row.
     */
    method AddPackageTxs(order: seq<Id>)
      returns (nPackagesSelected: nat, nDescendantsUpdated: int,
               ghost outcome: Outcome, ghost log: seq<Refusal>, ghost rounds: seq<Round>)
      requires Valid() && WithinLimits() && vtx == []
      requires Elements(order) == pool.txs && WeakOrder(ahead) && InOrder(pool, ahead, order)
      modifies this
      ensures Valid() && WithinLimits()
      ensures forall t :: t in vtx ==> includable(t)
      ensures Played(pool, ahead, minFee, order, rounds, inBlock) && nPackagesSelected == Selected(rounds)
      ensures LogOk(pool, includable, log) && LogBelow(log, Filled())
      ensures outcome == Exhausted ==>
        forall d :: d in pool.txs && d !in inBlock ==> Refused(pool, includable, Filled(), log, d)
      ensures outcome == BelowMinFee ==>
        rounds != [] && StoppedAt(pool, minFee, order, inBlock, log, rounds[|rounds| - 1])
      ensures outcome == NearlyFull ==> nBlockWeight > nBlockMaxWeight - 4000 && TooBig(log, Filled()) > 1000
    {
      hide Consistent, Template, Tracks, Total, Closed, Sum, Remainder, Elements, Valid, TestPackage, WithinLimits,
           AllSettled, Refused, LogOk, LogBelow, Filled, NoPlace, WeakOrder, InOrder, BestAmong, Played, Selected,
           TooBig, StoppedAt;
      nPackagesSelected, nDescendantsUpdated, outcome, log, rounds := 0, 0, Exhausted, [], [];
      var mod: map<Id, Modified> := map[];
      var failed: set<Id> := {};
      ghost var seen: set<Id> := {};
      var mi, nConsecutiveFailed := 0, 0;
      // Nothing is in the block yet, so no entry needs correcting.
      StartTracked(order);
      while mi < |order| || mod != map[]
        invariant Valid() && WithinLimits() && outcome == Exhausted
        invariant mi <= |order|
        invariant Tracks(pool, mod, log, inBlock, inBlock)
        invariant LogOk(pool, includable, log) && LogBelow(log, Filled())
        invariant forall t :: t in vtx ==> includable(t)
        invariant seen <= pool.txs && failed <= seen && Elements(order[..mi]) <= seen
        invariant AllSettled(inBlock, log, mod, seen)
        invariant Played(pool, ahead, minFee, order, rounds, inBlock) && nPackagesSelected == Selected(rounds)
        invariant nConsecutiveFailed == TooBig(log, Filled())
        decreases pool.txs - inBlock, |order| - mi, mod.Keys
      {
        if mi < |order| { OneMore(order, mi); }
        if mi < |order| && (order[mi] in mod || order[mi] in inBlock || order[mi] in failed) {
          SkippedSettled(inBlock, log, mod, seen, order[mi]);
          seen, mi := seen + {order[mi]}, mi + 1;
          continue;
        }
        var iter, usingModified, totals := Choose(order, mi, mod);
        if !usingModified { mi := mi + 1; }
        assert iter in pool.txs && iter !in inBlock by { CandidateIsNew(iter, usingModified, order, mod, log); }
        CandidateCovered(iter, totals, mod, log);
        var verdict, package := Judge(iter, totals.size, totals.modFees, totals.sigOps);
        ghost var round := Round(Candidate(iter, totals), mod, mi, inBlock, verdict);
        PlayedSnoc(pool, ahead, minFee, order, rounds, round);
        rounds := rounds + [round];
        assert rounds[|rounds| - 1] == round;
        if verdict.Stop? {
          Stopping(order, log, round, seen);
          outcome := BelowMinFee;
          return;
        }
        if verdict.Fail? || verdict.Reject? {
          ghost var r := Refusal(iter, Filled(), totals);
          TurnedAway(r, verdict, mod, log, seen);
          CountedRefusal(r, verdict, log);
          assert !usingModified ==> mod - {iter} == mod;
          seen, log := seen + {iter}, log + [r];
          if usingModified {
            mod, failed := mod - {iter}, failed + {iter};
          }
          if verdict.Fail? {
            nConsecutiveFailed := nConsecutiveFailed + 1;
            if nConsecutiveFailed > MAX_CONSECUTIVE_FAILURES && nBlockWeight > nBlockMaxWeight - 4000 {
              outcome := NearlyFull;
              break;
            }
          }
          continue;
        }
        nConsecutiveFailed := 0;
        var updated;
        ghost var filled := Filled();
        assert iter !in filled.inBlock by { FilledIs(); }
        mod, updated := Include(iter, package, totals, mod, log, seen);
        TooBigReset(log, filled, Filled(), iter) by { FilledIs(); }
        seen := seen + package;
        nPackagesSelected, nDescendantsUpdated := nPackagesSelected + 1, nDescendantsUpdated + updated;
      }
      if outcome == Exhausted { LeftOutRefused(order, log, seen); }
    }

    lemma FilledIs()
      ensures Filled().inBlock == inBlock
    {
    }

    lemma CountedRefusal(r: Refusal, verdict: Verdict, log: seq<Refusal>)
      requires r.at == Filled()
      requires verdict.Fail? <==> !TestPackage(r.totals.size, r.totals.sigOps)
      ensures TooBig(log + [r], Filled()) == TooBig(log, Filled()) + if verdict.Fail? then 1 else 0
    {
      TooBigSnoc(log, r, Filled());
    }

    lemma Stopping(order: seq<Id>, log: seq<Refusal>, r: Round, seen: set<Id>)
      requires r.verdict.Stop? && r.choice.totals.modFees < minFee(r.choice.totals.size) && r.at == inBlock
      requires r.choice.tx in pool.txs && r.choice.tx !in inBlock && r.read <= |order|
      requires Totals(pool, r.choice.totals, r.choice.tx, inBlock - Since(log, r.choice.tx))
      requires Fees(pool, r.choice.totals, r.choice.tx, inBlock - Since(log, r.choice.tx))
      requires AllSettled(inBlock, log, r.queue, seen) && Elements(order[..r.read]) <= seen + {r.choice.tx}
      ensures StoppedAt(pool, minFee, order, inBlock, log, r)
    {
      hide Totals, Fees, Since, Last;
      InElementsAll(order[..r.read]);
    }

    /** Adds an accepted package and brings the corrected entries up to date. */
    method Include(iter: Id, package: set<Id>, totals: Modified, mod: map<Id, Modified>,
                   ghost log: seq<Refusal>, ghost seen: set<Id>)
      returns (now: map<Id, Modified>, updated: int)
      requires Valid() && WithinLimits() && iter in pool.txs && iter !in inBlock
      requires package == Remainder(pool, iter, inBlock)
      requires totals.size >= Sum(package, pool.size) && totals.sigOps >= Sum(package, pool.sigOps)
      requires TestPackage(totals.size, totals.sigOps)
      requires Tracks(pool, mod, log, inBlock, inBlock) && LogBelow(log, Filled())
      requires AllSettled(inBlock, log, mod, seen)
      modifies this
      ensures Valid() && WithinLimits()
      ensures inBlock == old(inBlock) + package && iter in package && package <= pool.txs
      ensures forall t :: t in vtx ==> t in old(vtx) || t in package
      ensures Tracks(pool, now, log, inBlock, inBlock) && LogBelow(log, Filled())
      ensures AllSettled(inBlock, log, now, seen + package)
      ensures updated == Sum(package, UpdatesOf(pool, package))
    {
      hide Consistent, Template, Tracks, Total, Closed, Sum, Remainder, Elements, Distinct, SortedByCount, AllSettled,
           Stale, LogBelow, SinceWithin, UpdatesOf;
      ghost var before, filled := inBlock, Filled();
      PackageInPool(pool, iter, before);
      PackageFits(pool, package, totals.size, nBlockWeight, nBlockMaxWeight);
      SumsGrow(pool, package);
      assert Closed(pool, before) by { TemplateClosed(pool, vtx); }
      PackageErased(pool, mod, log, before, package);
      SinceAllBelow(log, filled);
      var sorted := SortForBlock(pool, package);
      InElementsAll(sorted);
      var erased := AddPackage(iter, sorted, mod);
      now, updated := UpdatePackagesForAdded(pool, package, erased, log, before);
      AllSettledStay(pool, mod, now, log, before, package, seen);
      LogBelowGrows(log, filled, Filled());
    }

    lemma StartTracked(order: seq<Id>)
      requires Valid() && vtx == []
      ensures Tracks(pool, map[], [], inBlock, inBlock)
      ensures LogOk(pool, includable, []) && LogBelow([], Filled())
      ensures AllSettled(inBlock, [], map[], {}) && Elements(order[..0]) == {}
      ensures Played(pool, ahead, minFee, order, [], inBlock) && Selected([]) == 0 && TooBig([], Filled()) == 0
    {
      NothingTracked(pool);
    }

    /** The candidate is never in the block already, wherever it was read from. */
    lemma CandidateIsNew(iter: Id, usingModified: bool, order: seq<Id>, mod: map<Id, Modified>, log: seq<Refusal>)
      requires Valid() && Tracks(pool, mod, log, inBlock, inBlock) && Elements(order) <= pool.txs
      requires usingModified ==> iter in mod
      requires !usingModified ==> iter in order && iter !in inBlock
      ensures iter in pool.txs && iter !in inBlock
    {
      hide Totals, Stale, Since;
      assert TrackedAt(pool, mod, log, inBlock, inBlock, iter);
      if !usingModified { assert iter in Elements(order); }
    }

    /**
     * The totals tested for the candidate are those of its package less the
     * ancestors added since it was last turned away, so they cover the package
     * that would be added.
     */
    lemma CandidateCovered(iter: Id, totals: Modified, mod: map<Id, Modified>, log: seq<Refusal>)
      requires Valid() && Tracks(pool, mod, log, inBlock, inBlock)
      requires iter in pool.txs && iter !in inBlock
      requires iter in mod ==> totals == mod[iter]
      requires iter !in mod ==> totals == CachedTotals(pool, iter)
      ensures Totals(pool, totals, iter, inBlock - Since(log, iter))
      ensures Fees(pool, totals, iter, inBlock - Since(log, iter))
      ensures totals.size >= Sum(Remainder(pool, iter, inBlock), pool.size)
      ensures totals.sigOps >= Sum(Remainder(pool, iter, inBlock), pool.sigOps)
    {
      hide Sum, Remainder, Consistent, Tracks, Totals, Since, Fees;
      CandidateTotals(pool, mod, log, inBlock, iter, totals);
      TotalsCover(pool, totals, iter, inBlock - Since(log, iter), inBlock);
    }

    lemma TurnedAway(r: Refusal, verdict: Verdict, mod: map<Id, Modified>, log: seq<Refusal>, seen: set<Id>)
      requires r.at == Filled() && Tracks(pool, mod, log, inBlock, inBlock)
      requires LogOk(pool, includable, log) && LogBelow(log, Filled()) && AllSettled(inBlock, log, mod, seen)
      requires Totals(pool, r.totals, r.tx, inBlock - Since(log, r.tx))
      requires verdict.Fail? ==> !TestPackage(r.totals.size, r.totals.sigOps)
      requires verdict.Reject? ==> exists t :: t in Remainder(pool, r.tx, inBlock) && !includable(t)
      requires verdict.Fail? || verdict.Reject?
      ensures Tracks(pool, mod - {r.tx}, log + [r], inBlock, inBlock)
      ensures LogOk(pool, includable, log + [r]) && LogBelow(log + [r], Filled())
      ensures AllSettled(inBlock, log + [r], mod - {r.tx}, seen + {r.tx})
    {
      hide Tracks, LogOk, Totals, Since, Remainder, Last;
      RefusalTracks(pool, mod, log, r);
      LogSnoc(pool, includable, log, r);
      forall d | d in seen + {r.tx}
        ensures d in inBlock || d in mod - {r.tx} || Last(log + [r], d).Some?
      {
        LastSnoc(log, r, d);
      }
    }

    lemma LeftOutRefused(order: seq<Id>, log: seq<Refusal>, seen: set<Id>)
      requires Elements(order) == pool.txs && Elements(order[..|order|]) <= seen
      requires Tracks(pool, map[], log, inBlock, inBlock)
      requires LogOk(pool, includable, log) && LogBelow(log, Filled()) && AllSettled(inBlock, log, map[], seen)
      ensures forall d :: d in pool.txs && d !in inBlock ==> Refused(pool, includable, Filled(), log, d)
    {
      hide Refused, Tracks, LogOk, LogBelow, Last;
      assert order[..|order|] == order;
      forall d | d in pool.txs && d !in inBlock
        ensures Refused(pool, includable, Filled(), log, d)
      {
        LeftOut(pool, includable, Filled(), log, d);
      }
    }
  }

  lemma SkippedSettled(inBlock: set<Id>, log: seq<Refusal>, mod: map<Id, Modified>, seen: set<Id>, t: Id)
    requires AllSettled(inBlock, log, mod, seen) && (t in mod || t in inBlock || t in seen)
    ensures AllSettled(inBlock, log, mod, seen + {t})
  {
    hide Last;
  }

  lemma SinceAllBelow(log: seq<Refusal>, b: Fill)
    requires LogBelow(log, b)
    ensures SinceWithin(log, b.inBlock)
  {
    forall d: Id
      ensures Since(log, d) <= b.inBlock
    {
      SinceBelow(log, b, d);
    }
  }

  lemma LogBelowGrows(log: seq<Refusal>, a: Fill, b: Fill)
    requires LogBelow(log, a) && Below(a, b)
    ensures LogBelow(log, b)
  {
  }

  lemma SumsGrow(p: Pool, package: set<Id>)
    requires Consistent(p) && package <= p.txs
    ensures Sum(package, p.weight) >= 0 && Sum(package, p.sigOps) >= 0
  {
    assert forall t :: t in package ==> CachedAt(p, t);
    SumMonotone({}, package, p.weight);
    SumMonotone({}, package, p.sigOps);
  }

  lemma OneMore(s: seq<Id>, i: nat)
    requires i < |s|
    ensures Elements(s[..i + 1]) == Elements(s[..i]) + {s[i]} && s[i] in Elements(s) && s[i] in s
  {
  }

  lemma InElements(t: Id, s: seq<Id>)
    requires t !in Elements(s)
    ensures t !in s
  {
  }

  lemma InElementsAll(s: seq<Id>)
    ensures forall t :: t in s ==> t in Elements(s)
  {
  }

  lemma NoElements(s: seq<Id>)
    ensures Elements(s[..0]) == {}
    ensures forall f :: Sum(Elements(s[..0]), f) == 0
  {
  }

  lemma ElementsStep(s: seq<Id>, i: nat, before: set<Id>)
    requires i < |s| && Distinct(s) && Elements(s) !! before
    ensures Elements(s[..i + 1]) == Elements(s[..i]) + {s[i]}
    ensures s[i] !in Elements(s[..i]) && s[i] !in before
  {
    assert s[i] in Elements(s);
  }

  lemma SumExtend(s: set<Id>, t: Id, f: Id -> int)
    requires t !in s
    ensures Sum(s + {t}, f) == Sum(s, f) + f(t)
  {
    SumRemove(s + {t}, f, t);
    assert s + {t} - {t} == s;
  }
}
