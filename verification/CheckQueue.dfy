/**
 The parallel check queue: one master and any number of workers share a LIFO
 queue under one mutex and two condition variables.

 `SharedQueue` is the object itself: each method is the code that runs inside
 (or between) its critical sections. `System` is the interleaved protocol, one
 step per critical section and one per batch execution, built from the same
 specification functions the methods are proved against.
 */
module CheckQueue {

  /** A verification job; its outcome is fixed, and learnt only by executing it. */
  datatype Check = Check(id: nat, ok: bool)

  predicate AllPass(checks: seq<Check>) {
    forall i :: 0 <= i < |checks| ==> checks[i].ok
  }

  const U32: nat := 0x1_0000_0000

  /** The fields guarded by the mutex. `todo` is a 32-bit unsigned counter. */
  datatype Shared = Shared(
    queue: seq<Check>, idle: int, total: int, allOk: bool, todo: nat, batchSize: nat)

  // ---------------------------------------------------------------- critical sections

  function Reverse<T>(s: seq<T>): (r: seq<T>)
    ensures |r| == |s|
    ensures forall i :: 0 <= i < |s| ==> r[i] == s[|s| - 1 - i]
  {
    if s == [] then [] else [s[|s| - 1]] + Reverse(s[..|s| - 1])
  }

  function Min(a: nat, b: nat): nat { if a <= b then a else b }
  function Max(a: nat, b: nat): nat { if a <= b then b else a }

  /** How many jobs to take now; the divisor counts every thread, idle ones twice. */
  function BatchSize(sh: Shared): (n: nat)
    requires sh.total + sh.idle + 1 > 0
    ensures 1 <= n
    ensures n <= Max(1, sh.batchSize)
    ensures sh.queue != [] ==> n <= |sh.queue|
  {
    var share := (|sh.queue| % U32) / (sh.total + sh.idle + 1);
    assert share <= |sh.queue|;
    Max(1, Min(sh.batchSize, share))
  }

  function Enqueue(sh: Shared, checks: seq<Check>): Shared {
    sh.(queue := sh.queue + checks, todo := (sh.todo + |checks|) % U32)
  }

  /** Clean-up of the previous iteration (`count` jobs, verdict `ok`), or the first arrival. */
  function Retire(sh: Shared, count: nat, ok: bool): Shared {
    if count > 0
    then sh.(allOk := sh.allOk && ok, todo := (sh.todo - count) % U32)
    else sh.(total := sh.total + 1)
  }

  function TakeBatch(sh: Shared): (r: (Shared, seq<Check>))
    requires sh.queue != [] && sh.total + sh.idle + 1 > 0
    ensures 1 <= |r.1| <= Max(1, sh.batchSize)
    ensures r.0 == sh.(queue := r.0.queue) && |r.0.queue| + |r.1| == |sh.queue|
  {
    var keep := |sh.queue| - BatchSize(sh);
    (sh.(queue := sh.queue[..keep]), Reverse(sh.queue[keep..]))
  }

  /**
   The batch is the largest, up to the batch size, that would leave as much for every other thread
   and idle thread; but never nothing. It holds the newest jobs, newest first.
   */
  lemma FairShare(sh: Shared)
    requires sh.queue != [] && |sh.queue| < U32 && sh.total + sh.idle + 1 > 0
    ensures
      var (left, batch) := TakeBatch(sh);
      var n, threads := |batch|, sh.total + sh.idle + 1;
      && (n > 1 ==> n * threads <= |sh.queue|)
      && (n < sh.batchSize ==> (n + 1) * threads > |sh.queue|)
      && left.queue == sh.queue[..|sh.queue| - n]
      && forall i :: 0 <= i < n ==> batch[i] == sh.queue[|sh.queue| - 1 - i]
  {
    var threads := sh.total + sh.idle + 1;
    var n, share := BatchSize(sh), |sh.queue| / threads;
    Quotient(|sh.queue|, threads, n, share);
  }

  lemma Quotient(a: nat, d: nat, n: nat, q: nat)
    requires d > 0 && q == a / d
    ensures n <= q ==> n * d <= a
    ensures n >= q ==> (n + 1) * d > a
  {
    assert q * d <= a < (q + 1) * d;
    if n <= q { assert n * d <= q * d; } else { assert (q + 1) * d <= (n + 1) * d; }
  }

  /** Taking a batch moves jobs; it neither drops nor copies one. */
  lemma TakeBatchConserves(sh: Shared)
    requires sh.queue != [] && sh.total + sh.idle + 1 > 0
    ensures multiset(sh.queue) == multiset(TakeBatch(sh).0.queue) + multiset(TakeBatch(sh).1)
  {
    var keep := |sh.queue| - BatchSize(sh);
    ReverseBag(sh.queue[keep..]);
    assert sh.queue == sh.queue[..keep] + sh.queue[keep..];
  }

  lemma {:induction false} ReverseBag<T>(s: seq<T>)
    ensures multiset(Reverse(s)) == multiset(s)
  {
    if s != [] {
      var init := s[..|s| - 1];
      ReverseBag(init);
      assert s == init + [s[|s| - 1]];
      assert multiset(Reverse(s)) == multiset([s[|s| - 1]]) + multiset(Reverse(init));
    }
  }

  /** The queue object; the methods are the bodies of its critical sections. */
  class SharedQueue {
    var queue: seq<Check>
    var nIdle: int
    var nTotal: int
    var fAllOk: bool
    var nTodo: nat
    const nBatchSize: nat

    function View(): Shared
      reads this
    {
      Shared(queue, nIdle, nTotal, fAllOk, nTodo, nBatchSize)
    }

    constructor (nBatchSizeIn: nat)
      ensures View() == Shared([], 0, 0, true, 0, nBatchSizeIn)
    {
      queue, nIdle, nTotal, fAllOk, nTodo := [], 0, 0, true, 0;
      nBatchSize := nBatchSizeIn;
    }

    /** Returns how many sleeping workers are to be notified: none, one or all (2). */
    method Add(vChecks: seq<Check>) returns (notify: nat)
      modifies this
      ensures View() == Enqueue(old(View()), vChecks)
      ensures notify == Min(|vChecks|, 2)
    {
      for i := 0 to |vChecks|
        invariant queue == old(queue) + vChecks[..i]
        invariant View() == old(View()).(queue := queue)
      {
        queue := queue + [vChecks[i]];
      }
      assert vChecks[..|vChecks|] == vChecks;
      nTodo := (nTodo + |vChecks|) % U32;
      notify := if |vChecks| == 1 then 1 else if |vChecks| > 1 then 2 else 0;
    }

    /** The clean-up at the top of an iteration; the result says whether to notify the master. */
    method CleanUp(fMaster: bool, nNow: nat, fOk: bool) returns (notifyMaster: bool)
      modifies this
      ensures View() == Retire(old(View()), nNow, fOk)
      ensures notifyMaster == (nNow > 0 && nTodo == 0 && !fMaster)
    {
      notifyMaster := false;
      if nNow > 0 {
        fAllOk := fAllOk && fOk;
        nTodo := (nTodo - nNow) % U32;
        if nTodo == 0 && !fMaster {
          notifyMaster := true;
        }
      } else {
        nTotal := nTotal + 1;
      }
    }

    /** Moves the newest jobs, newest first, into a private batch. */
    method Take() returns (vChecks: seq<Check>, fOk: bool)
      requires queue != [] && nTotal + nIdle + 1 > 0
      modifies this
      ensures (View(), vChecks) == TakeBatch(old(View()))
      ensures fOk == old(fAllOk)
    {
      var nNow := BatchSize(View());
      vChecks := [];
      for i := 0 to nNow
        invariant |vChecks| == i && i <= |old(queue)|
        invariant View() == old(View()).(queue := queue)
        invariant queue == old(queue)[..|old(queue)| - i]
        invariant forall j :: 0 <= j < i ==> vChecks[j] == old(queue)[|old(queue)| - 1 - j]
      {
        vChecks := vChecks + [queue[|queue| - 1]];
        queue := queue[..|queue| - 1];
      }
      fOk := fAllOk;
      var keep := |old(queue)| - nNow;
      assert vChecks == Reverse(old(queue)[keep..]);
    }
  }

  /** Executes a batch outside the mutex, skipping everything after the first failure. */
  method RunBatch(vChecks: seq<Check>, fOkIn: bool) returns (fOk: bool)
    ensures fOk == (fOkIn && AllPass(vChecks))
  {
    fOk := fOkIn;
    for i := 0 to |vChecks|
      invariant fOk == (fOkIn && AllPass(vChecks[..i]))
    {
      assert vChecks[..i + 1] == vChecks[..i] + [vChecks[i]];
      if fOk {
        fOk := vChecks[i].ok;
      }
    }
    assert vChecks[..|vChecks|] == vChecks;
  }

  // ---------------------------------------------------------------- the protocol

  /** Where a thread stands. `Finished` still names its batch; the code keeps only its length. */
  datatype Thread =
    | Outside
    | Entering
    | Asleep
    | Woken
    | Working(batch: seq<Check>, ok: bool)
    | Finished(batch: seq<Check>, ok: bool)

  const MASTER: nat := 0

  /** Thread 0 is the master. `added` and `retired` record the current round; no step reads them. */
  datatype System = System(
    shared: Shared, threads: seq<Thread>, added: seq<Check>, retired: multiset<Check>)

  datatype Event =
    | AddChecks(checks: seq<Check>, woken: set<nat>)
    | Enter(t: nat)
    | Lock(t: nat)
    | Return(verdict: bool)
    | Execute(t: nat)
    | Spurious(t: nat)

  predicate Init(s: System) {
    && s.shared.queue == [] && s.shared.idle == 0 && s.shared.total == 0
    && s.shared.allOk && s.shared.todo == 0
    && |s.threads| > 0
    && (forall t :: 0 <= t < |s.threads| ==> s.threads[t] == Outside)
    && s.added == [] && s.retired == multiset{}
  }

  function HeldBy(t: Thread): seq<Check> {
    if t.Working? || t.Finished? then t.batch else []
  }

  /** The shared state once a thread that wants the mutex has it and has cleaned up. */
  function AfterCleanUp(sh: Shared, t: Thread): Shared {
    match t
    case Entering => Retire(sh, 0, true)
    case Finished(batch, ok) => Retire(sh, |batch|, ok)
    case _ => sh.(idle := sh.idle - 1)
  }

  predicate WantsLock(t: Thread) {
    t.Entering? || t.Woken? || t.Finished?
  }

  predicate MasterDone(sh: Shared) {
    sh.queue == [] && sh.todo == 0
  }

  /** Whom `Add` may wake: nobody, one sleeping worker if there is one, or all of them. */
  predicate ValidWake(s: System, count: nat, woken: set<nat>) {
    && (forall t :: t in woken ==> t != MASTER && t < |s.threads| && s.threads[t].Asleep?)
    && (count == 0 ==> woken == {})
    && (count == 1 ==> |woken| <= 1)
    && (count > 0 && woken == {} ==>
          forall t :: 0 < t < |s.threads| ==> !s.threads[t].Asleep?)
    && (count > 1 ==> forall t :: 0 < t < |s.threads| && s.threads[t].Asleep? ==> t in woken)
  }

  /** Only the master adds, never while in Wait; the counter must be able to hold the jobs. */
  predicate CanAdd(s: System, checks: seq<Check>, woken: set<nat>) {
    && |s.threads| > 0 && s.threads[MASTER].Outside?
    && s.shared.todo + |checks| < U32
    && ValidWake(s, |checks|, woken)
  }

  predicate CanLock(s: System, t: nat) {
    && t < |s.threads| && WantsLock(s.threads[t])
    && var sh := AfterCleanUp(s.shared, s.threads[t]);
       !(t == MASTER && MasterDone(sh)) && (sh.queue != [] ==> sh.total + sh.idle + 1 > 0)
  }

  predicate CanReturn(s: System, verdict: bool) {
    && |s.threads| > 0 && WantsLock(s.threads[MASTER])
    && var sh := AfterCleanUp(s.shared, s.threads[MASTER]);
       MasterDone(sh) && verdict == sh.allOk
  }

  predicate Enabled(s: System, e: Event) {
    match e
    case AddChecks(checks, woken) => CanAdd(s, checks, woken)
    case Enter(t) => t < |s.threads| && s.threads[t].Outside?
    case Lock(t) => CanLock(s, t)
    case Return(verdict) => CanReturn(s, verdict)
    case Execute(t) => t < |s.threads| && s.threads[t].Working?
    case Spurious(t) => t < |s.threads| && s.threads[t].Asleep?
  }

  function Wake(ts: seq<Thread>, woken: set<nat>): (r: seq<Thread>)
    ensures |r| == |ts|
    ensures forall t :: 0 <= t < |ts| ==>
      r[t] == if t in woken && ts[t].Asleep? then Woken else ts[t]
  {
    seq(|ts|, t requires 0 <= t < |ts| => if t in woken && ts[t].Asleep? then Woken else ts[t])
  }

  /** A worker that retires the last job notifies the master, which counts only if it sleeps. */
  function NotifyMaster(ts: seq<Thread>, sh: Shared, t: nat): seq<Thread>
    requires t < |ts|
  {
    if ts[t].Finished? && |ts[t].batch| > 0 && sh.todo == 0 && t != MASTER && ts[MASTER].Asleep?
    then ts[MASTER := Woken]
    else ts
  }

  function RetiredBy(t: Thread): multiset<Check> {
    if t.Finished? then multiset(t.batch) else multiset{}
  }

  function AfterAdd(s: System, checks: seq<Check>, woken: set<nat>): System {
    s.(shared := Enqueue(s.shared, checks), threads := Wake(s.threads, woken),
       added := s.added + checks)
  }

  /** The mutex is held, the clean-up is done and the master, if due, is notified. */
  function Settling(s: System, t: nat): System
    requires t < |s.threads|
  {
    var sh := AfterCleanUp(s.shared, s.threads[t]);
    s.(shared := sh, threads := NotifyMaster(s.threads, sh, t),
       retired := s.retired + RetiredBy(s.threads[t]))
  }

  /** The critical section ends in `wait`, or with a batch taken from the queue. */
  function AfterLock(s: System, t: nat): System
    requires CanLock(s, t)
  {
    var m := Settling(s, t);
    if m.shared.queue == [] then
      m.(shared := m.shared.(idle := m.shared.idle + 1), threads := m.threads[t := Asleep])
    else
      var (sh, batch) := TakeBatch(m.shared);
      m.(shared := sh, threads := m.threads[t := Working(batch, sh.allOk)])
  }

  function AfterReturn(s: System): System
    requires |s.threads| > 0
  {
    var sh := AfterCleanUp(s.shared, s.threads[MASTER]);
    s.(shared := sh.(total := sh.total - 1, allOk := true),
       threads := s.threads[MASTER := Outside], added := [], retired := multiset{})
  }

  /** What a step that touches only its own thread leaves that thread as. */
  function AfterLocal(t: Thread, e: Event): Thread {
    match e
    case Enter(_) => Entering
    case Spurious(_) => Woken
    case _ => if t.Working? then Finished(t.batch, t.ok && AllPass(t.batch)) else t
  }

  function Apply(s: System, e: Event): System
    requires Enabled(s, e)
  {
    match e
    case AddChecks(checks, woken) => AfterAdd(s, checks, woken)
    case Lock(t) => AfterLock(s, t)
    case Return(_) => AfterReturn(s)
    case Enter(t) => s.(threads := s.threads[t := AfterLocal(s.threads[t], e)])
    case Execute(t) => s.(threads := s.threads[t := AfterLocal(s.threads[t], e)])
    case Spurious(t) => s.(threads := s.threads[t := AfterLocal(s.threads[t], e)])
  }

  // ---------------------------------------------------------------- sums over the threads

  function Sum(ts: seq<Thread>, weight: Thread -> nat): nat {
    if ts == [] then 0 else weight(ts[0]) + Sum(ts[1..], weight)
  }

  lemma {:induction false} SumUpdate(ts: seq<Thread>, weight: Thread -> nat, i: nat, t: Thread)
    requires i < |ts|
    ensures Sum(ts[i := t], weight) + weight(ts[i]) == Sum(ts, weight) + weight(t)
  {
    if i > 0 {
      SumUpdate(ts[1..], weight, i - 1, t);
      assert ts[i := t][1..] == ts[1..][i - 1 := t];
    } else {
      assert ts[i := t][1..] == ts[1..];
    }
  }

  /** Waking threads changes a sum by the weight of the threads woken. */
  lemma {:induction false} SumAgree(ts: seq<Thread>, us: seq<Thread>, weight: Thread -> nat)
    requires |ts| == |us|
    requires forall i :: 0 <= i < |ts| ==> weight(ts[i]) == weight(us[i])
    ensures Sum(ts, weight) == Sum(us, weight)
  {
    if ts != [] {
      SumAgree(ts[1..], us[1..], weight);
    }
  }

  lemma {:induction false} SumAtLeast(ts: seq<Thread>, weight: Thread -> nat, i: nat)
    requires i < |ts|
    ensures weight(ts[i]) <= Sum(ts, weight)
  {
    if i > 0 {
      SumAtLeast(ts[1..], weight, i - 1);
    }
  }

  lemma {:induction false} SumPositive(ts: seq<Thread>, weight: Thread -> nat) returns (i: nat)
    requires Sum(ts, weight) > 0
    ensures i < |ts| && weight(ts[i]) > 0
  {
    if weight(ts[0]) > 0 {
      i := 0;
    } else {
      var j := SumPositive(ts[1..], weight);
      i := j + 1;
    }
  }

  const IDLE: Thread -> nat := (t: Thread) => if t.Asleep? || t.Woken? then 1 else 0
  const PRESENT: Thread -> nat := (t: Thread) => if t.Outside? || t.Entering? then 0 else 1
  const HELD: Thread -> nat := (t: Thread) => |HeldBy(t)|

  function HeldBag(ts: seq<Thread>): multiset<Check> {
    if ts == [] then multiset{} else multiset(HeldBy(ts[0])) + HeldBag(ts[1..])
  }

  lemma BagShift<T>(head: multiset<T>, a: multiset<T>, x: multiset<T>, b: multiset<T>, y: multiset<T>)
    requires a + x == b + y
    ensures (head + a) + x == (head + b) + y
  {
    assert (head + a) + x == head + (a + x);
    assert (head + b) + y == head + (b + y);
  }

  lemma BagCancel<T>(a: multiset<T>, b: multiset<T>, x: multiset<T>)
    requires a + x == b + x
    ensures a == b
  {
    assert a == (a + x) - x;
    assert b == (b + x) - x;
  }

  lemma {:induction false} HeldBagUpdate(ts: seq<Thread>, i: nat, t: Thread)
    requires i < |ts|
    ensures HeldBag(ts[i := t]) + multiset(HeldBy(ts[i])) == HeldBag(ts) + multiset(HeldBy(t))
  {
    if i > 0 {
      HeldBagUpdate(ts[1..], i - 1, t);
      assert ts[i := t][1..] == ts[1..][i - 1 := t];
      BagShift(multiset(HeldBy(ts[0])), HeldBag(ts[1..][i - 1 := t]), multiset(HeldBy(ts[i])),
               HeldBag(ts[1..]), multiset(HeldBy(t)));
    } else {
      assert ts[i := t][1..] == ts[1..];
    }
  }

  lemma {:induction false} HeldBagAgree(ts: seq<Thread>, us: seq<Thread>)
    requires |ts| == |us|
    requires forall i :: 0 <= i < |ts| ==> HeldBy(ts[i]) == HeldBy(us[i])
    ensures HeldBag(ts) == HeldBag(us)
  {
    if ts != [] {
      HeldBagAgree(ts[1..], us[1..]);
    }
  }

  lemma {:induction false} HeldBagSize(ts: seq<Thread>)
    ensures |HeldBag(ts)| == Sum(ts, HELD)
  {
    if ts != [] {
      HeldBagSize(ts[1..]);
    }
  }

  // ---------------------------------------------------------------- the invariant

  /** A thread's batch is within bounds, and its verdict so far is justified by the round. */
  predicate ThreadOk(t: Thread, limit: nat, someFail: bool) {
    && (t.Working? || t.Finished? ==> 1 <= |t.batch| <= limit && (!t.ok ==> someFail))
    && (t.Finished? && t.ok ==> AllPass(t.batch))
  }

  ghost predicate Counted(s: System) {
    && |s.threads| > 0
    && s.shared.total == Sum(s.threads, PRESENT)
    && s.shared.idle == Sum(s.threads, IDLE)
    && s.shared.todo == |s.shared.queue| + Sum(s.threads, HELD) < U32
  }

  /** A sleeping master has nothing to take and something to wait for. */
  predicate MasterWaits(s: System) {
    |s.threads| > 0 && s.threads[MASTER].Asleep? ==> s.shared.queue == [] && s.shared.todo > 0
  }

  /** No job is lost, duplicated or carried over from another round. */
  ghost predicate Conserved(s: System) {
    multiset(s.added) == multiset(s.shared.queue) + HeldBag(s.threads) + s.retired
  }

  ghost predicate Justified(s: System) {
    && (s.shared.allOk ==> forall c :: c in s.retired ==> c.ok)
    && (!s.shared.allOk ==> !AllPass(s.added))
    && (forall t :: 0 <= t < |s.threads| ==>
          ThreadOk(s.threads[t], Max(1, s.shared.batchSize), !AllPass(s.added)))
  }

  ghost predicate Inv(s: System) {
    Counted(s) && MasterWaits(s) && Conserved(s) && Justified(s)
  }

  lemma InitInv(s: System)
    requires Init(s)
    ensures Inv(s)
  {
    var none := seq(|s.threads|, i => Outside);
    assert s.threads == none;
    NothingHeld(s.threads);
  }

  lemma {:induction false} NothingHeld(ts: seq<Thread>)
    requires forall t :: 0 <= t < |ts| ==> ts[t] == Outside
    ensures Sum(ts, PRESENT) == Sum(ts, IDLE) == Sum(ts, HELD) == 0
    ensures HeldBag(ts) == multiset{}
  {
    if ts != [] {
      NothingHeld(ts[1..]);
    }
  }

  /** Replacing one thread moves every sum by that thread's share. */
  lemma ReplaceThread(ts: seq<Thread>, i: nat, t: Thread)
    requires i < |ts|
    ensures Sum(ts[i := t], PRESENT) + PRESENT(ts[i]) == Sum(ts, PRESENT) + PRESENT(t)
    ensures Sum(ts[i := t], IDLE) + IDLE(ts[i]) == Sum(ts, IDLE) + IDLE(t)
    ensures Sum(ts[i := t], HELD) + HELD(ts[i]) == Sum(ts, HELD) + HELD(t)
  {
    SumUpdate(ts, PRESENT, i, t);
    SumUpdate(ts, IDLE, i, t);
    SumUpdate(ts, HELD, i, t);
  }

  /** Waking sleepers changes no sum. */
  lemma WakeKeepsSums(ts: seq<Thread>, us: seq<Thread>)
    requires |ts| == |us|
    requires forall i :: 0 <= i < |ts| ==> us[i] == ts[i] || (ts[i].Asleep? && us[i].Woken?)
    ensures Sum(ts, PRESENT) == Sum(us, PRESENT)
    ensures Sum(ts, IDLE) == Sum(us, IDLE)
    ensures Sum(ts, HELD) == Sum(us, HELD)
    ensures HeldBag(ts) == HeldBag(us)
  {
    SumAgree(ts, us, PRESENT);
    SumAgree(ts, us, IDLE);
    SumAgree(ts, us, HELD);
    HeldBagAgree(ts, us);
  }

  lemma AddCounted(s: System, checks: seq<Check>, woken: set<nat>)
    requires Counted(s) && CanAdd(s, checks, woken)
    ensures Counted(AfterAdd(s, checks, woken))
  {
    WakeKeepsSums(s.threads, Wake(s.threads, woken));
  }

  predicate Local(e: Event) { e.Enter? || e.Execute? || e.Spurious? }

  lemma LocalCounted(s: System, e: Event)
    requires Counted(s) && Local(e) && Enabled(s, e)
    ensures Counted(Apply(s, e))
  {
    ReplaceThread(s.threads, e.t, AfterLocal(s.threads[e.t], e));
  }

  /** Once thread `t` has the mutex the counters are exact but for `t` itself. */
  lemma CleanUpCounted(s: System, t: nat)
    requires Counted(s) && t < |s.threads| && WantsLock(s.threads[t])
    requires s.threads[t].Finished? ==> |s.threads[t].batch| > 0
    ensures
      var sh := AfterCleanUp(s.shared, s.threads[t]);
      && sh.todo == |sh.queue| + Sum(s.threads, HELD) - HELD(s.threads[t]) < U32
      && sh.total == Sum(s.threads, PRESENT) + 1 - PRESENT(s.threads[t])
      && sh.idle == Sum(s.threads, IDLE) - IDLE(s.threads[t])
  {
    SumAtLeast(s.threads, HELD, t);
  }

  lemma ReturnCounted(s: System, verdict: bool)
    requires Counted(s) && CanReturn(s, verdict)
    requires s.threads[MASTER].Finished? ==> |s.threads[MASTER].batch| > 0
    ensures Counted(AfterReturn(s))
  {
    CleanUpCounted(s, MASTER);
    ReplaceThread(s.threads, MASTER, Outside);
  }

  lemma LockCounted(s: System, t: nat)
    requires Counted(s) && CanLock(s, t)
    requires s.threads[t].Finished? ==> |s.threads[t].batch| > 0
    ensures Counted(AfterLock(s, t))
  {
    var m, s' := Settling(s, t), AfterLock(s, t);
    WakeKeepsSums(s.threads, m.threads);
    CleanUpCounted(s, t);
    ReplaceThread(m.threads, t, s'.threads[t]);
  }

  // ---------------------------------------------------------------- conservation

  lemma AddConserved(s: System, checks: seq<Check>, woken: set<nat>)
    requires Conserved(s)
    ensures Conserved(AfterAdd(s, checks, woken))
  {
    HeldBagAgree(s.threads, Wake(s.threads, woken));
  }

  lemma LocalConserved(s: System, e: Event)
    requires Conserved(s) && Local(e) && Enabled(s, e)
    ensures Conserved(Apply(s, e))
  {
    var before, after := s.threads[e.t], AfterLocal(s.threads[e.t], e);
    assert HeldBy(before) == HeldBy(after);
    HeldBagUpdate(s.threads, e.t, after);
    BagCancel(HeldBag(s.threads[e.t := after]), HeldBag(s.threads), multiset(HeldBy(before)));
  }

  /** Whatever thread `t` leaves the critical section with came out of the queue. */
  lemma LockQueue(s: System, t: nat)
    requires CanLock(s, t)
    ensures multiset(s.shared.queue)
         == multiset(AfterLock(s, t).shared.queue) + multiset(HeldBy(AfterLock(s, t).threads[t]))
  {
    var m, s' := Settling(s, t), AfterLock(s, t);
    assert m.shared.queue == s.shared.queue;
    if m.shared.queue == [] {
      assert s'.shared.queue == [] && HeldBy(s'.threads[t]) == [];
    } else {
      TakeBatchConserves(m.shared);
      assert s'.shared.queue == TakeBatch(m.shared).0.queue;
      assert HeldBy(s'.threads[t]) == TakeBatch(m.shared).1;
    }
  }

  lemma LockHeld(s: System, t: nat)
    requires CanLock(s, t)
    ensures HeldBag(AfterLock(s, t).threads) + RetiredBy(s.threads[t])
         == HeldBag(s.threads) + multiset(HeldBy(AfterLock(s, t).threads[t]))
  {
    var m := Settling(s, t);
    HeldBagAgree(s.threads, m.threads);
    HeldBagUpdate(m.threads, t, AfterLock(s, t).threads[t]);
  }

  lemma LockConserved(s: System, t: nat)
    requires Conserved(s) && CanLock(s, t)
    ensures Conserved(AfterLock(s, t))
  {
    LockQueue(s, t);
    LockHeld(s, t);
    var s' := AfterLock(s, t);
    BagMove(multiset(s.added), multiset(s'.shared.queue), multiset(HeldBy(s'.threads[t])),
            HeldBag(s.threads), s.retired, HeldBag(s'.threads), RetiredBy(s.threads[t]));
  }

  /** Jobs `y` leave the queue for a batch while jobs `x` leave a batch for good. */
  lemma BagMove<T>(all: multiset<T>, queue: multiset<T>, y: multiset<T>,
                   held: multiset<T>, retired: multiset<T>, held': multiset<T>, x: multiset<T>)
    requires all == (queue + y) + held + retired
    requires held' + x == held + y
    ensures all == queue + held' + (retired + x)
  {
    assert all == queue + (held + y) + retired;
    assert all == queue + (held' + x) + retired;
  }

  // ---------------------------------------------------------------- verdicts

  lemma {:induction false} HeldBagHas(ts: seq<Thread>, t: nat, c: Check)
    requires t < |ts| && c in HeldBy(ts[t])
    ensures c in HeldBag(ts)
  {
    if t > 0 {
      HeldBagHas(ts[1..], t - 1, c);
    }
  }

  /** A failing job in somebody's batch is a failing job of this round. */
  lemma HeldIsAdded(s: System, t: nat)
    requires Conserved(s) && t < |s.threads| && !AllPass(HeldBy(s.threads[t]))
    ensures !AllPass(s.added)
  {
    var batch := HeldBy(s.threads[t]);
    var i :| 0 <= i < |batch| && !batch[i].ok;
    HeldBagHas(s.threads, t, batch[i]);
    assert batch[i] in multiset(s.added);
    assert batch[i] in s.added;
  }

  lemma AddJustified(s: System, checks: seq<Check>, woken: set<nat>)
    requires Justified(s)
    ensures Justified(AfterAdd(s, checks, woken))
  {
    var s' := AfterAdd(s, checks, woken);
    assert forall i :: 0 <= i < |s.added| ==> s'.added[i] == s.added[i];
  }

  lemma LocalJustified(s: System, e: Event)
    requires Conserved(s) && Justified(s) && Local(e) && Enabled(s, e)
    ensures Justified(Apply(s, e))
  {
    if e.Execute? && !AllPass(s.threads[e.t].batch) {
      HeldIsAdded(s, e.t);
    }
  }

  lemma SettlingJustified(s: System, t: nat)
    requires Justified(s) && t < |s.threads| && WantsLock(s.threads[t])
    ensures Justified(Settling(s, t))
  {
    var m := Settling(s, t);
    if m.shared.allOk {
      forall c | c in m.retired
        ensures c.ok
      {
        if c !in s.retired {
          assert c in RetiredBy(s.threads[t]);
          assert c in s.threads[t].batch;
        }
      }
    }
  }

  lemma LockJustified(s: System, t: nat)
    requires Justified(s) && CanLock(s, t)
    ensures Justified(AfterLock(s, t))
  {
    SettlingJustified(s, t);
  }

  // ---------------------------------------------------------------- every round

  /** When the master may leave, everything added this round has been retired. */
  lemma ReturnEmpty(s: System, verdict: bool)
    requires Inv(s) && CanReturn(s, verdict)
    ensures multiset(s.added) == Settling(s, MASTER).retired
    ensures forall t :: 0 < t < |s.threads| ==> HeldBy(s.threads[t]) == []
  {
    CleanUpCounted(s, MASTER);
    var rest := s.threads[MASTER := Outside];
    ReplaceThread(s.threads, MASTER, Outside);
    HeldBagSize(rest);
    assert |HeldBag(rest)| == 0;
    HeldBagUpdate(s.threads, MASTER, Outside);
    BagMove(multiset(s.added), multiset{}, multiset{}, HeldBag(s.threads), s.retired,
            HeldBag(rest), multiset(HeldBy(s.threads[MASTER])));
    forall t | 0 < t < |s.threads|
      ensures HeldBy(s.threads[t]) == []
    {
      SumAtLeast(rest, HELD, t);
      assert rest[t] == s.threads[t];
    }
  }

  /** The verdict is the conjunction of the round's checks. */
  lemma ReturnVerdict(s: System, verdict: bool)
    requires Inv(s) && CanReturn(s, verdict)
    ensures verdict == AllPass(s.added)
  {
    ReturnEmpty(s, verdict);
    SettlingJustified(s, MASTER);
    forall i | 0 <= i < |s.added| && verdict
      ensures s.added[i].ok
    {
      assert s.added[i] in multiset(s.added);
    }
  }

  lemma ReturnInv(s: System, verdict: bool)
    requires Inv(s) && CanReturn(s, verdict)
    ensures Inv(AfterReturn(s))
  {
    ReturnCounted(s, verdict);
    ReturnEmpty(s, verdict);
    var s' := AfterReturn(s);
    forall t | 0 <= t < |s'.threads|
      ensures HeldBy(s'.threads[t]) == [] && !s'.threads[t].Working? && !s'.threads[t].Finished?
    {
      assert t > 0 ==> s'.threads[t] == s.threads[t];
    }
    HeldBagAgree(s'.threads, seq(|s'.threads|, i => Outside));
    NothingHeld(seq(|s'.threads|, i => Outside));
  }

  lemma StepMasterWaits(s: System, e: Event)
    requires Counted(s) && MasterWaits(s) && Enabled(s, e)
    ensures MasterWaits(Apply(s, e))
  {
    if e.Lock? && e.t != MASTER && s.threads[MASTER].Asleep? && s.threads[e.t].Finished? {
      SumAtLeast(s.threads, HELD, e.t);
    }
  }

  lemma StepInv(s: System, e: Event)
    requires Inv(s) && Enabled(s, e)
    ensures Inv(Apply(s, e))
  {
    StepMasterWaits(s, e);
    match e
    case AddChecks(checks, woken) =>
      AddCounted(s, checks, woken);
      AddConserved(s, checks, woken);
      AddJustified(s, checks, woken);
    case Lock(t) =>
      LockCounted(s, t);
      LockConserved(s, t);
      LockJustified(s, t);
    case Return(verdict) =>
      ReturnInv(s, verdict);
    case _ =>
      LocalCounted(s, e);
      LocalConserved(s, e);
      LocalJustified(s, e);
  }

  // ---------------------------------------------------------------- whole runs

  ghost predicate Run(states: seq<System>, events: seq<Event>) {
    && |states| == |events| + 1
    && forall i :: 0 <= i < |events| ==>
         Enabled(states[i], events[i]) && states[i + 1] == Apply(states[i], events[i])
  }

  /** The checks added since the last time Wait returned, read off the events alone. */
  function AddedSince(events: seq<Event>): seq<Check> {
    if events == [] then [] else
      var last, before := events[|events| - 1], events[..|events| - 1];
      if last.Return? then []
      else if last.AddChecks? then AddedSince(before) + last.checks
      else AddedSince(before)
  }

  lemma {:induction false} RunInv(states: seq<System>, events: seq<Event>)
    requires Run(states, events) && Init(states[0])
    ensures Inv(states[|events|])
    ensures states[|events|].added == AddedSince(events)
  {
    if events == [] {
      InitInv(states[0]);
    } else {
      var n := |events| - 1;
      assert Run(states[..n + 1], events[..n]);
      RunInv(states[..n + 1], events[..n]);
      StepInv(states[n], events[n]);
    }
  }

  /** Nothing queued, nothing in anybody's batch, and no verdict carried over. */
  predicate Unused(s: System) {
    && s.shared.queue == [] && s.shared.todo == 0 && s.shared.allOk
    && forall t :: 0 <= t < |s.threads| ==> HeldBy(s.threads[t]) == []
  }

  /**
   Every interleaving, every sequence of rounds: Wait returns true exactly when all checks
   added since the previous Wait pass, and it leaves nothing of the round behind.
   */
  lemma WaitCorrect(states: seq<System>, events: seq<Event>, k: nat)
    requires Run(states, events) && Init(states[0])
    requires k < |events| && events[k].Return?
    ensures events[k].verdict == AllPass(AddedSince(events[..k]))
    ensures Unused(states[k + 1])
  {
    assert Run(states[..k + 1], events[..k]);
    RunInv(states[..k + 1], events[..k]);
    var s := states[k];
    ReturnVerdict(s, events[k].verdict);
    ReturnEmpty(s, events[k].verdict);
    var s' := states[k + 1];
    assert s' == AfterReturn(s);
    forall t | 0 <= t < |s'.threads|
      ensures HeldBy(s'.threads[t]) == []
    {
      assert t > 0 ==> s'.threads[t] == s.threads[t];
    }
  }

  /** In every reachable state the counters are exact and every batch is within its bounds. */
  lemma CountersExact(states: seq<System>, events: seq<Event>, k: nat)
    requires Run(states, events) && Init(states[0]) && k <= |events|
    ensures
      var s := states[k];
      && s.shared.todo == |s.shared.queue| + |HeldBag(s.threads)|
      && multiset(s.added) == multiset(s.shared.queue) + HeldBag(s.threads) + s.retired
      && (forall t :: 0 <= t < |s.threads| && (s.threads[t].Working? || s.threads[t].Finished?) ==>
            1 <= |s.threads[t].batch| <= Max(1, s.shared.batchSize))
  {
    assert Run(states[..k + 1], events[..k]);
    RunInv(states[..k + 1], events[..k]);
    HeldBagSize(states[k].threads);
  }

  /** No wake-up is lost: while the master sleeps, some worker still holds a batch. */
  lemma SleepingMasterHasHelper(s: System) returns (t: nat)
    requires Inv(s) && s.threads[MASTER].Asleep?
    ensures 0 < t < |s.threads| && (s.threads[t].Working? || s.threads[t].Finished?)
  {
    t := SumPositive(s.threads, HELD);
  }

  // ---------------------------------------------------------------- Wait returns

  predicate InWait(s: System) {
    |s.threads| > 0 && !s.threads[MASTER].Outside?
  }

  predicate Work(e: Event) { e.Lock? || e.Execute? || e.Return? }

  /** Deadlock freedom: while the master is in Wait, some thread can make a step of work. */
  lemma WorkEnabled(s: System) returns (e: Event)
    requires Inv(s) && InWait(s)
    ensures Work(e) && Enabled(s, e)
  {
    var t := MASTER;
    if s.threads[MASTER].Asleep? {
      t := SleepingMasterHasHelper(s);
    }
    if s.threads[t].Working? {
      return Execute(t);
    }
    CleanUpCounted(s, t);
    SumAtLeast(s.threads, IDLE, t);
    SumAtLeast(s.threads, PRESENT, t);
    var sh := AfterCleanUp(s.shared, s.threads[t]);
    if t == MASTER && MasterDone(sh) {
      return Return(sh.allOk);
    }
    return Lock(t);
  }

  const EFFORT: Thread -> nat := (t: Thread) =>
    match t
    case Outside => 0
    case Asleep => 0
    case Entering => 1
    case Woken => 1
    case Finished(_, _) => 2
    case Working(_, _) => 3

  /** An upper bound on the steps of work still to be done. */
  function Effort(s: System): nat {
    3 * |s.shared.queue| + Sum(s.threads, EFFORT)
  }

  lemma WorkDecreases(s: System, e: Event)
    requires Inv(s) && Work(e) && Enabled(s, e)
    ensures Effort(Apply(s, e)) < Effort(s)
  {
    match e
    case Execute(t) => SumUpdate(s.threads, EFFORT, t, AfterLocal(s.threads[t], e));
    case Return(_) => SumUpdate(s.threads, EFFORT, MASTER, Outside);
    case Lock(t) => LockDecreases(s, t);
  }

  lemma LockDecreases(s: System, t: nat)
    requires Inv(s) && CanLock(s, t)
    ensures Effort(AfterLock(s, t)) < Effort(s)
  {
    var m, s' := Settling(s, t), AfterLock(s, t);
    SumUpdate(s.threads, EFFORT, MASTER, Woken);
    SumUpdate(m.threads, EFFORT, t, s'.threads[t]);
  }

  /** Everything that is not work costs at most one more step of work. */
  lemma OtherIncreases(s: System, e: Event)
    requires Enabled(s, e) && (e.Spurious? || e.Enter?)
    ensures Effort(Apply(s, e)) == Effort(s) + 1
  {
    SumUpdate(s.threads, EFFORT, e.t, AfterLocal(s.threads[e.t], e));
  }

  function CountWork(events: seq<Event>): nat {
    if events == [] then 0 else (if Work(events[0]) then 1 else 0) + CountWork(events[1..])
  }

  /**
   While the master stays in Wait, a run makes at most as many steps of work as the effort
   left plus the number of spurious wake-ups and newly started workers. With `WorkEnabled`:
   unless threads wake up spuriously forever, Wait returns.
   */
  lemma {:induction false} WaitTerminates(states: seq<System>, events: seq<Event>)
    requires Run(states, events) && Inv(states[0]) && InWait(states[0])
    requires forall i :: 0 <= i < |events| ==> !events[i].Return?
    ensures CountWork(events) + Effort(states[|events|])
         <= Effort(states[0]) + (|events| - CountWork(events))
    ensures Inv(states[|events|]) && InWait(states[|events|])
    decreases |events|
  {
    if events != [] {
      var s, e := states[0], events[0];
      StepInv(s, e);
      assert InWait(states[1]);
      if Work(e) {
        WorkDecreases(s, e);
      } else {
        OtherIncreases(s, e);
      }
      assert Run(states[1..], events[1..]) by {
        forall i | 0 <= i < |events[1..]|
          ensures Enabled(states[1..][i], events[1..][i])
               && states[1..][i + 1] == Apply(states[1..][i], events[1..][i])
        {
          assert events[1..][i] == events[i + 1] && states[1..][i] == states[i + 1];
          assert states[1..][i + 1] == states[i + 2];
        }
      }
      WaitTerminates(states[1..], events[1..]);
    }
  }
}
