/**
 * Difficulty retargeting, the proof-of-work check and the work a block
 * represents, over 256-bit numbers.
 */
module ProofOfWork {
  import opened Powers
  import opened Limbs
  import opened ArithUint
  import opened CompactTarget

  /** Consensus parameters: the easiest target, the retarget timespan, the block spacing. */
  datatype Params = Params(powLimit: nat, span: nat, spacing: nat, noRetargeting: bool)

  datatype Header = Header(time: int, bits: Compact)

  /** Division that rounds toward zero. */
  function Truncated(a: int, b: int): int
    requires b > 0
  {
    if a >= 0 then a / b else -((-a) / b)
  }

  /** The damped and clamped timespan. */
  function Modulated(actual: int, span: nat): int {
    var t := span + Truncated(actual - span, 8);
    var low, high := span - span / 4, span + span / 2;
    if t < low then low else if t > high then high else t
  }

  /** The new target before capping, in 256-bit arithmetic. */
  ghost function Unrounded(target: nat, actual: int, span: nat): int
    requires span > 0
  {
    ((target * (Modulated(actual, span) % BASE)) % TOP) / span
  }

  ghost function NextTarget(target: nat, actual: int, p: Params): int
    requires p.span > 0
  {
    if Unrounded(target, actual, p.span) > p.powLimit then p.powLimit else Unrounded(target, actual, p.span)
  }

  /** The target a compact value sets is positive, representable and not above the limit. */
  ghost predicate InRange(bits: Compact, powLimit: nat) {
    !Negative(bits) && !Overflow(bits) && Decode(bits) <= powLimit
  }

  /** The largest step cannot wrap around. */
  ghost predicate Roomy(p: Params) {
    p.span > 0 && p.span + p.span / 2 < BASE && p.powLimit * (p.span + p.span / 2) < TOP
  }

  lemma UnroundedRange(target: nat, actual: int, span: nat)
    requires span > 0
    ensures 0 <= Unrounded(target, actual, span) < TOP
  {
    hide Modulated;
    var x := (target * (Modulated(actual, span) % BASE)) % TOP;
    AtMostSelf(x, span);
  }

  /**
   * Up to the limit a step never wraps, and before capping it lies between
   * three quarters and three halves of the old target.
   */
  lemma StepBounds(target: nat, actual: int, p: Params)
    requires Roomy(p) && target <= p.powLimit
    ensures Unrounded(target, actual, p.span) == (target * Modulated(actual, p.span)) / p.span
    ensures p.span % 4 == 0 ==> (3 * target) / 4 <= Unrounded(target, actual, p.span) <= (3 * target) / 2
  {
    hide Pow2, Modulated;
    var t, high := Modulated(actual, p.span), p.span + p.span / 2;
    ModulatedRange(actual, p.span);
    MulMonotone(t, high, target);
    MulMonotone(0, t, target);
    MulMonotone(target, p.powLimit, high);
    assert target * t == t * target && target * high == high * target;
    DivMod(t, BASE, 0, t);
    DivMod(target * t, TOP, 0, target * t);
    if p.span % 4 == 0 {
      Quarter(target, t, p.span / 4);
    }
  }

  lemma ModulatedRange(actual: int, span: nat)
    requires span > 0
    ensures 0 < span - span / 4 <= Modulated(actual, span) <= span + span / 2
  {
  }

  lemma Quarter(target: nat, t: nat, s: nat)
    requires s > 0 && 3 * s <= t <= 6 * s
    ensures (3 * target) / 4 <= (target * t) / (4 * s) <= (3 * target) / 2
  {
    MulMonotone(3 * s, t, target);
    MulMonotone(t, 6 * s, target);
    var n := (target * t) / (4 * s);
    FloorBounds(target * t, 4 * s);
    assert (3 * s) * target == (3 * target) * s && (6 * s) * target == (6 * target) * s;
    assert (n + 1) * (4 * s) == (4 * (n + 1)) * s && n * (4 * s) == (4 * n) * s;
    Cancel(3 * target, 4 * (n + 1), s);
    CancelAtMost(4 * n, 6 * target, s);
  }

  lemma Cancel(a: int, b: int, s: nat)
    requires a * s < b * s
    ensures a < b
  {
    if a >= b { MulMonotone(b, a, s); }
  }

  lemma CancelAtMost(a: int, b: int, s: nat)
    requires s > 0 && a * s <= b * s
    ensures a <= b
  {
    if a > b {
      MulMonotone(b + 1, a, s);
    }
  }

  // ---------------------------------------------------------------- which way and how far a target moves

  function Min(a: int, b: int): int { if a <= b then a else b }

  function Max(a: int, b: int): int { if a <= b then b else a }

  /** Blocks slow by eight `d` seconds, or up to seven more, stretch the timespan by `d`, up to a half. */
  lemma ModulatedSlow(actual: int, span: nat, d: nat)
    requires span + 8 * d <= actual < span + 8 * d + 8
    ensures Modulated(actual, span) == Min(span + d, span + span / 2)
  {
  }

  /** Blocks fast by eight `d` seconds, or up to seven more, shorten it by `d`, down to three quarters. */
  lemma ModulatedFast(actual: int, span: nat, d: nat)
    requires span - 8 * d - 8 < actual <= span - 8 * d
    ensures Modulated(actual, span) == Max(span - d, span - span / 4)
  {
  }

  lemma ModulatedMonotone(a: int, b: int, span: nat)
    requires a <= b
    ensures Modulated(a, span) <= Modulated(b, span)
  {
  }

  lemma QuotientMonotone(a: nat, b: nat, p: nat)
    requires p > 0 && a <= b
    ensures 0 <= a / p <= b / p
  {
    FloorBounds(a, p);
    FloorBounds(b, p);
    if a / p > b / p { MulMonotone(b / p + 1, a / p, p); }
    AtMostSelf(a, p);
  }

  /** The new target, before cap and rounding, is in proportion to the damped timespan. */
  lemma StepExact(target: nat, actual: int, p: Params, d: nat)
    requires Roomy(p) && target <= p.powLimit
    ensures p.span + 8 * d <= actual < p.span + 8 * d + 8 ==>
      Unrounded(target, actual, p.span) == target * Min(p.span + d, p.span + p.span / 2) / p.span
    ensures p.span - 8 * d - 8 < actual <= p.span - 8 * d ==>
      Unrounded(target, actual, p.span) == target * Max(p.span - d, p.span - p.span / 4) / p.span
  {
    hide Modulated, Unrounded, Roomy, Min, Max;
    assert p.span > 0 by { RoomySpan(p); }
    StepBounds(target, actual, p);
    if p.span + 8 * d <= actual < p.span + 8 * d + 8 { ModulatedSlow(actual, p.span, d); }
    if p.span - 8 * d - 8 < actual <= p.span - 8 * d { ModulatedFast(actual, p.span, d); }
  }

  lemma RoomySpan(p: Params)
    requires Roomy(p)
    ensures p.span > 0
  {
  }

  /** The longer the blocks took, the easier the next target. */
  lemma StepMonotone(target: nat, a: int, b: int, p: Params)
    requires Roomy(p) && target <= p.powLimit && a <= b
    ensures Unrounded(target, a, p.span) <= Unrounded(target, b, p.span)
  {
    hide Modulated, Unrounded, Pow2;
    StepBounds(target, a, p);
    StepBounds(target, b, p);
    ModulatedMonotone(a, b, p.span);
    ModulatedRange(a, p.span);
    MulMonotone(0, Modulated(a, p.span), target);
    MulMonotone(Modulated(a, p.span), Modulated(b, p.span), target);
    QuotientMonotone(target * Modulated(a, p.span), target * Modulated(b, p.span), p.span);
  }

  /** Exactly on time, or within eight seconds of it, the target stays. */
  lemma StepSteady(target: nat, actual: int, p: Params)
    requires Roomy(p) && target <= p.powLimit && p.span - 8 < actual < p.span + 8
    ensures Unrounded(target, actual, p.span) == target
  {
    hide Unrounded, Roomy;
    RoomySpan(p);
    StepExact(target, actual, p, 0);
    MultipleMod(target, p.span);
  }

  /** Slow blocks never make the target harder, fast ones never easier. */
  lemma StepDirection(target: nat, actual: int, p: Params)
    requires Roomy(p) && target <= p.powLimit
    ensures actual >= p.span - 7 ==> Unrounded(target, actual, p.span) >= target
    ensures actual <= p.span + 7 ==> Unrounded(target, actual, p.span) <= target
  {
    hide Unrounded, Roomy;
    RoomySpan(p);
    if p.span - 8 < actual < p.span + 8 {
      StepSteady(target, actual, p);
    } else {
      StepSteady(target, p.span, p);
      if actual > p.span { StepMonotone(target, p.span, actual, p); } else { StepMonotone(target, actual, p.span, p); }
    }
  }

  /** The main and test networks' parameters: a limit of 2^244 - 1 and two-minute blocks. */
  lemma MainNetRoomy()
    ensures Roomy(Params(Pow2(244) - 1, 120, 120, false)) && Pow2(244) - 1 < TOP
  {
    hide Pow2;
    Pow2Add(244, 12);
    Pow2Add(8, 4);
    SmallPowers();
  }

  lemma SmallPowers()
    ensures Pow2(8) == 256 && Pow2(4) == 16
  {
  }

  // ---------------------------------------------------------------- whole chains

  /** The bits a block must carry, given its predecessor and the measured timespan. */
  ghost function NextBits(last: Compact, actual: int, p: Params): int
    requires p.span > 0
  {
    if p.noRetargeting then last else
      UnroundedRange(Decode(last), actual, p.span);
      Encode(NextTarget(Decode(last), actual, p), false)
  }

  /** One retarget puts the target in range, wherever it was; without retargeting it stays there. */
  lemma RetargetInRange(last: Compact, actual: int, p: Params)
    requires p.span > 0 && p.powLimit < TOP && (p.noRetargeting ==> InRange(last, p.powLimit))
    ensures 0 <= NextBits(last, actual, p) < BASE
    ensures InRange(NextBits(last, actual, p), p.powLimit)
  {
    hide Pow2, Decode, Encode, Negative, Overflow, Unrounded;
    UnroundedRange(Decode(last), actual, p.span);
    if !p.noRetargeting {
      EncodeRoundsDown(NextTarget(Decode(last), actual, p));
    }
  }

  /**
   * One retarget of a target within the limit: at most three halves of the old
   * target; before the limit and the compact rounding at least three quarters
   * of it, and the rounding loses at most one part in 2^15.
   */
  ghost predicate GentleStep(was: nat, now: nat, p: Params) {
    now <= p.powLimit && 2 * now <= 3 * was && exists t: nat :: RoundedFrom(t, was, now, p)
  }

  /** `now` is the compact rounding of `t`, which is the limit or at least three quarters of `was`. */
  ghost predicate RoundedFrom(t: nat, was: nat, now: nat, p: Params) {
    now <= t && (t - now) * 0x8000 <= t && (t == p.powLimit || (3 * was) / 4 <= t)
  }

  lemma RetargetGentle(last: Compact, actual: int, p: Params)
    requires p.span > 0 && p.span % 4 == 0 && Roomy(p) && p.powLimit < TOP && InRange(last, p.powLimit)
    ensures 0 <= NextBits(last, actual, p) < BASE
    ensures GentleStep(Decode(last), Decode(NextBits(last, actual, p)), p)
  {
    hide Pow2, Decode, Encode, Negative, Overflow, Unrounded, Roomy;
    var was := Decode(last);
    if p.noRetargeting {
      assert RoundedFrom(was, was, was, p);
    } else {
      UnroundedRange(was, actual, p.span);
      StepBounds(was, actual, p);
      var t := NextTarget(was, actual, p);
      EncodeRoundsDown(t);
      var now := Decode(NextBits(last, actual, p));
      assert RoundedFrom(t, was, now, p);
    }
  }

  /** Cap and rounding included, more time never gives a harder target. */
  lemma RetargetMonotone(last: Compact, a: int, b: int, p: Params)
    requires Roomy(p) && p.powLimit < TOP && InRange(last, p.powLimit) && a <= b
    ensures 0 <= NextBits(last, a, p) < BASE && 0 <= NextBits(last, b, p) < BASE
    ensures Decode(NextBits(last, a, p)) <= Decode(NextBits(last, b, p))
  {
    hide Pow2, Decode, Encode, Negative, Overflow, Unrounded, Roomy;
    RoomySpan(p);
    if !p.noRetargeting {
      UnroundedRange(Decode(last), a, p.span);
      UnroundedRange(Decode(last), b, p.span);
      StepMonotone(Decode(last), a, b, p);
      EncodeMonotone(NextTarget(Decode(last), a, p), NextTarget(Decode(last), b, p));
    }
  }

  /** Cap and rounding included: slow blocks never lower a target, fast ones never raise it. */
  ghost predicate Directed(was: nat, now: nat, actual: int, p: Params) {
    (actual >= p.span - 7 ==> now >= was) && (actual <= p.span + 7 ==> now <= was)
  }

  lemma RetargetDirected(last: Compact, actual: int, p: Params)
    requires Roomy(p) && p.powLimit < TOP && InRange(last, p.powLimit)
    ensures 0 <= NextBits(last, actual, p) < BASE
    ensures Directed(Decode(last), Decode(NextBits(last, actual, p)), actual, p)
  {
    hide Pow2, Decode, Encode, Negative, Overflow, Unrounded, Roomy, Meaning;
    RoomySpan(p);
    if !p.noRetargeting {
      UnroundedRange(Decode(last), actual, p.span);
      StepDirection(Decode(last), actual, p);
      var t := NextTarget(Decode(last), actual, p);
      EncodeRoundsDown(t);
      OverflowExact(last);
      if actual >= p.span - 7 { EncodeGreatest(last, t); }
    }
  }

  function Interval(p: Params): int
    requires p.spacing > 0
  {
    p.span / p.spacing
  }

  /** The block whose time starts the measured timespan; negative when the walk runs off the chain. */
  function FirstOf(height: nat, interval: int): int {
    height - (if height + 1 != interval then interval else interval - 1)
  }

  /** Every block after the first carries the required bits. */
  ghost predicate Follows(chain: seq<Header>, p: Params)
    requires p.span > 0 && p.spacing > 0
  {
    forall i :: 1 <= i < |chain| ==> FollowsAt(chain, p, i)
  }

  ghost predicate FollowsAt(chain: seq<Header>, p: Params, i: nat)
    requires p.span > 0 && p.spacing > 0 && 1 <= i < |chain|
  {
    var first := FirstOf(i - 1, Interval(p));
    0 <= first < i && chain[i].bits == NextBits(chain[i - 1].bits, chain[i - 1].time - chain[first].time, p)
  }

  /**
   * On a followed chain every target is in range, whatever the block times and
   * the first target are; without retargeting, if the first one is.
   */
  lemma {:induction false} ChainInRange(chain: seq<Header>, p: Params, i: nat)
    requires p.span > 0 && p.spacing > 0 && p.powLimit < TOP
    requires i < |chain| && Follows(chain, p)
    requires i == 0 || p.noRetargeting ==> InRange(chain[0].bits, p.powLimit)
    ensures InRange(chain[i].bits, p.powLimit)
  {
    hide InRange, NextBits;
    if i > 0 {
      if p.noRetargeting { ChainInRange(chain, p, i - 1); }
      assert FollowsAt(chain, p, i);
      var first := FirstOf(i - 1, Interval(p));
      RetargetInRange(chain[i - 1].bits, chain[i - 1].time - chain[first].time, p);
    }
  }

  /** With room for the largest step, difficulty moves gently along the whole chain. */
  lemma ChainGentle(chain: seq<Header>, p: Params, i: nat)
    requires Roomy(p) && p.powLimit < TOP && p.span % 4 == 0 && p.spacing > 0
    requires 0 < i < |chain| && Follows(chain, p) && InRange(chain[0].bits, p.powLimit)
    ensures GentleStep(Decode(chain[i - 1].bits), Decode(chain[i].bits), p)
  {
    hide InRange, NextBits, GentleStep;
    ChainInRange(chain, p, i - 1);
    assert FollowsAt(chain, p, i);
    var first := FirstOf(i - 1, Interval(p));
    RetargetGentle(chain[i - 1].bits, chain[i - 1].time - chain[first].time, p);
  }

  /** The time that block `i` is retargeted by. */
  function Measured(chain: seq<Header>, p: Params, i: nat): int
    requires p.spacing > 0 && 0 < i < |chain| && 0 <= FirstOf(i - 1, Interval(p)) < i
  {
    chain[i - 1].time - chain[FirstOf(i - 1, Interval(p))].time
  }

  /** Along the whole chain the target follows the time that was measured. */
  lemma ChainDirected(chain: seq<Header>, p: Params, i: nat)
    requires Roomy(p) && p.powLimit < TOP && p.spacing > 0
    requires 0 < i < |chain| && Follows(chain, p) && InRange(chain[0].bits, p.powLimit)
    ensures 0 <= FirstOf(i - 1, Interval(p)) < i
    ensures Directed(Decode(chain[i - 1].bits), Decode(chain[i].bits), Measured(chain, p, i), p)
  {
    hide InRange, NextBits, Directed, Roomy;
    RoomySpan(p);
    ChainInRange(chain, p, i - 1);
    assert FollowsAt(chain, p, i);
    RetargetDirected(chain[i - 1].bits, Measured(chain, p, i), p);
  }

  /** The walk back ends on the chain exactly when the chain has a whole interval, at its first block if no more. */
  lemma WalkEnds(height: nat, interval: nat)
    requires interval >= 1
    ensures FirstOf(height, interval) >= 0 <==> height + 1 >= interval
    ensures height + 1 == interval ==> FirstOf(height, interval) == 0
    ensures height + 1 > interval ==> FirstOf(height, interval) == height - interval
  {
  }

  /** Without retargeting every block carries the bits of the first one. */
  lemma {:induction false} ChainFixed(chain: seq<Header>, p: Params, i: nat)
    requires p.span > 0 && p.spacing > 0 && p.noRetargeting && i < |chain| && Follows(chain, p)
    ensures chain[i].bits == chain[0].bits
  {
    if i > 0 {
      ChainFixed(chain, p, i - 1);
      assert FollowsAt(chain, p, i);
    }
  }

  ghost predicate Evenly(chain: seq<Header>, spacing: nat) {
    forall i :: 0 < i < |chain| ==> chain[i].time == chain[i - 1].time + spacing
  }

  lemma {:induction false} EvenTimes(chain: seq<Header>, spacing: nat, i: nat, j: nat)
    requires Evenly(chain, spacing) && i <= j < |chain|
    ensures chain[j].time == chain[i].time + (j - i) * spacing
  {
    if i < j {
      EvenTimes(chain, spacing, i, j - 1);
      assert (j - i) * spacing == (j - 1 - i) * spacing + spacing;
    }
  }

  /** Blocks that come exactly on time keep their target, but for the first interval, which is one block short. */
  lemma ChainSteady(chain: seq<Header>, p: Params, i: nat)
    requires Roomy(p) && p.powLimit < TOP && p.spacing > 0 && p.span % p.spacing == 0 && Evenly(chain, p.spacing)
    requires 0 < i < |chain| && Follows(chain, p) && InRange(chain[0].bits, p.powLimit)
    ensures i != Interval(p) ==> Decode(chain[i].bits) == Decode(chain[i - 1].bits)
    ensures i == Interval(p) ==> Decode(chain[i].bits) <= Decode(chain[i - 1].bits)
  {
    hide InRange, NextBits, Roomy, Evenly, Follows;
    RoomySpan(p);
    ChainDirected(chain, p, i);
    var first := FirstOf(i - 1, Interval(p));
    EvenTimes(chain, p.spacing, first, i - 1);
    assert Interval(p) * p.spacing == p.span by { WholeMultiple(p.span, p.spacing); }
    MulMonotone(i - 1 - first, Interval(p), p.spacing);
  }

  lemma WholeMultiple(a: nat, b: nat)
    requires b > 0 && a % b == 0
    ensures (a / b) * b == a
  {
  }

  // ---------------------------------------------------------------- the methods

  /** The next required bits, computed in place on 256-bit numbers. */
  method CalculateDigishield(lastBits: Compact, lastTime: int, firstTime: int, powLimit: BaseUint, p: Params)
    returns (bits: Compact)
    requires powLimit.pn.Length == LIMBS && powLimit.Number() == p.powLimit
    requires 0 < p.span < BASE * BASE
    ensures bits == NextBits(lastBits, lastTime - firstTime, p)
  {
    hide Value, Place, Pow2, Decode, Encode, Modulated;
    if p.noRetargeting { return lastBits; }
    var span := p.span;
    var t := Modulated(lastTime - firstTime, span);
    var bnNew := new BaseUint(LIMBS);
    var negative, overflow := SetCompact(bnNew, lastBits);
    bnNew.MulSmall(t % BASE);
    BytesTop();
    var divisor := new BaseUint(LIMBS);
    divisor.Assign64(span);
    var status;
    ghost var remainder;
    status, remainder := bnNew.DivAssign(divisor);
    var c := bnNew.CompareTo(powLimit);
    if c > 0 { bnNew := new BaseUint.Copy(powLimit); }
    bits := GetCompact(bnNew, false);
  }

  /** Walks back to the start of the measured timespan and retargets from there. */
  method GetNextWorkRequired(chain: seq<Header>, powLimit: BaseUint, p: Params) returns (found: bool, bits: Compact)
    requires |chain| > 0 && p.spacing > 0
    requires powLimit.pn.Length == LIMBS && powLimit.Number() == p.powLimit
    requires 0 < p.span < BASE * BASE
    ensures found <==> FirstOf(|chain| - 1, Interval(p)) >= 0
    ensures found ==>
      var last, first := chain[|chain| - 1], chain[FirstOf(|chain| - 1, Interval(p))];
      bits == NextBits(last.bits, last.time - first.time, p)
  {
    hide NextBits;
    Quotients(p.span, p.spacing);
    var interval := p.span / p.spacing;
    var back := interval - 1;
    if |chain| != interval { back := interval; }
    var first := |chain| - 1;
    var i := 0;
    while first >= 0 && i < back
      invariant 0 <= i <= back && first == |chain| - 1 - i && first >= -1
    {
      first, i := first - 1, i + 1;
    }
    bits := 0;
    found := first >= 0;
    if found {
      bits := CalculateDigishield(chain[|chain| - 1].bits, chain[|chain| - 1].time, chain[first].time, powLimit, p);
    }
  }

  lemma Quotients(span: nat, spacing: nat)
    requires spacing > 0
    ensures 0 <= span / spacing
  {
    AtMostSelf(span, spacing);
  }

  /** Accepts a hash exactly when the bits are in range, not zero, and the hash does not exceed the target. */
  method CheckProofOfWork(hash: BaseUint, nBits: Compact, powLimit: BaseUint) returns (ok: bool)
    requires hash.pn.Length == powLimit.pn.Length == LIMBS && powLimit.Number() >= 0
    ensures ok <==> InRange(nBits, powLimit.Number()) && Decode(nBits) != 0 && hash.Number() <= Decode(nBits)
  {
    hide Value, Place, Pow2, Decode, Negative, Overflow;
    var target := new BaseUint(LIMBS);
    var negative, overflow := SetCompact(target, nBits);
    var zero := target.EqualTo(0);
    var c := target.CompareTo(powLimit);
    if negative || zero || overflow || c > 0 { return false; }
    c := hash.CompareTo(target);
    ok := c <= 0;
  }

  /**
   * The work of a block: how many hashes it takes on average, 2^256 / (target + 1),
   * though 2^256 itself cannot be represented. Adding one to the target cannot wrap.
   */
  method GetBlockProof(nBits: Compact) returns (work: BaseUint)
    ensures fresh(work) && work.pn.Length == LIMBS
    ensures work.Number() ==
      if Negative(nBits) || Overflow(nBits) || Decode(nBits) == 0 then 0 else TOP / (Decode(nBits) + 1)
  {
    hide Value, Place, Pow2, Decode, Negative, Overflow;
    var target := new BaseUint(LIMBS);
    var negative, overflow := SetCompact(target, nBits);
    var zero := target.EqualTo(0);
    if negative || overflow || zero {
      work := new BaseUint(LIMBS);
      return;
    }
    BytesTop();
    NeverAllOnes(nBits);
    ghost var t := target.Number();
    work := target.Complement();
    var next := new BaseUint.Copy(target);
    next.Increment();
    DivMod(t + 1, TOP, 0, t + 1);
    var status;
    ghost var remainder;
    status, remainder := work.DivAssign(next);
    ProofQuotient(t);
    work.Increment();
  }

  /** A 23-bit mantissa never fills all 256 bits. */
  lemma NeverAllOnes(c: Compact)
    requires !Overflow(c)
    ensures Decode(c) + 1 < TOP
  {
    hide Pow2, Overflow, Bytes;
    OverflowExact(c);
    WordSmall(c);
    BytesTop();
    if Size(c) <= 3 {
      MulMonotone(1, Bytes(29), 0x1000000);
    } else {
      MultipleOf256(Mantissa(c), Size(c) - 3);
    }
  }

  lemma MultipleOf256(m: nat, n: nat)
    requires n > 0 && m * Bytes(n) < TOP
    ensures m * Bytes(n) + 1 < TOP
  {
    hide Pow2, Bytes;
    BytesTop();
    SmallBytes();
    BytesAdd(n - 1, 1);
    assert m * (Bytes(n - 1) * 256) == (m * Bytes(n - 1)) * 256;
  }

  lemma ProofQuotient(t: nat)
    requires 0 < t && t + 1 < TOP
    ensures ((TOP - 1 - t) / (t + 1) + 1) % TOP == TOP / (t + 1)
  {
    hide Pow2;
    var d, r := (TOP - 1 - t) / (t + 1), (TOP - 1 - t) % (t + 1);
    AtMostSelf(TOP - 1 - t, t + 1);
    NextMultiple(TOP - 1 - t, t + 1);
    DivMod(TOP, t + 1, d + 1, r);
    DivMod(d + 1, TOP, 0, d + 1);
  }

  lemma NextMultiple(x: nat, p: nat)
    requires p > 0
    ensures x + p == (x / p + 1) * p + x % p
  {
  }
}
