/**
 * Numbers as little-endian sequences of 32-bit limbs, and the arithmetic facts
 * behind the carry and shift loops.
 */
module Limbs {
  import opened Powers

  const BASE: nat := 0x1_0000_0000

  type Limb = x: int | 0 <= x < BASE

  /** The weight of limb `n`. */
  ghost function Place(n: nat): (p: nat)
    ensures p >= 1
  {
    Pow2(32 * n)
  }

  ghost function Value(s: seq<Limb>): int {
    if s == [] then 0 else Value(s[..|s| - 1]) + s[|s| - 1] * Place(|s| - 1)
  }

  lemma PlaceZero()
    ensures Place(0) == 1
  {
  }

  lemma Pow2Base()
    ensures Pow2(32) == BASE
  {
    assert Pow2(8) == 256;
    Pow2Add(8, 8);
    Pow2Add(16, 16);
  }

  lemma PlaceStep(n: nat)
    ensures Place(n + 1) == Place(n) * BASE
  {
    Pow2Base();
    Pow2Add(32 * n, 32);
  }

  lemma PlaceAdd(m: nat, n: nat)
    ensures Place(m + n) == Place(m) * Place(n)
  {
    Pow2Add(32 * m, 32 * n);
  }

  lemma FirstPlaces()
    ensures Place(0) == 1 && Place(1) == BASE && Place(2) == BASE * BASE
  {
    PlaceStep(0);
    PlaceStep(1);
  }

  lemma {:induction false} ValuePositive(s: seq<Limb>, i: nat)
    requires i < |s| && s[i] != 0
    ensures Value(s) >= 1
  {
    hide Place, Value;
    ValueSplit(s, i + 1);
    ValueStep(s, i);
    ValueBound(s[..i]);
    ValueBound(s[i + 1..]);
    MulMonotone(1, s[i], Place(i));
    MulMonotone(0, Value(s[i + 1..]), Place(i + 1));
  }

  lemma ValueStep(s: seq<Limb>, i: nat)
    requires i < |s|
    ensures Value(s[..i + 1]) == Value(s[..i]) + s[i] * Place(i)
  {
    assert s[..i + 1][..i] == s[..i];
  }

  lemma ValueAll(s: seq<Limb>)
    ensures s[..|s|] == s && s[..0] == [] && Value(s[..0]) == 0
  {
  }

  lemma {:induction false} ValueBound(s: seq<Limb>)
    ensures 0 <= Value(s) < Place(|s|)
  {
    hide Place;
    PlaceZero();
    if s != [] {
      var n := |s| - 1;
      ValueBound(s[..n]);
      PlaceStep(n);
      Carried(Value(s[..n]), s[n], Place(n));
    }
  }

  lemma MulMonotone(a: int, b: int, c: nat)
    requires a <= b
    ensures a * c <= b * c
  {
  }

  lemma Carried(v: nat, x: Limb, p: nat)
    requires v < p
    ensures 0 <= v + x * p < p * BASE
  {
    MulMonotone(x, BASE - 1, p);
    MulMonotone(0, x, p);
  }

  lemma {:induction false} ValueSplit(s: seq<Limb>, i: nat)
    requires i <= |s|
    ensures Value(s) == Value(s[..i]) + Place(i) * Value(s[i..])
  {
    hide Place;
    if i == |s| {
      assert s[..i] == s && s[i..] == [];
    } else {
      var n := |s| - 1;
      var t := s[..n];
      ValueSplit(t, i);
      assert t[..i] == s[..i];
      assert s[i..][..n - i] == t[i..];
      PlaceAdd(i, n - i);
      Regroup(Place(i), Value(t[i..]), s[n], Place(n - i));
    }
  }

  lemma Regroup(a: int, v: int, x: int, b: int)
    ensures a * v + x * (a * b) == a * (v + x * b)
  {
    assert x * (a * b) == a * (x * b);
  }

  lemma {:induction false} ValueZero(s: seq<Limb>)
    requires forall i :: 0 <= i < |s| ==> s[i] == 0
    ensures Value(s) == 0
  {
    if s != [] {
      ValueZero(s[..|s| - 1]);
    }
  }

  /** Equal values of equal width have equal limbs. */
  lemma {:induction false} ValueInjective(s: seq<Limb>, t: seq<Limb>)
    requires |s| == |t| && Value(s) == Value(t)
    ensures s == t
  {
    hide Place;
    if s != [] {
      var n := |s| - 1;
      ValueBound(s[..n]);
      ValueBound(t[..n]);
      TopEqual(Value(s[..n]), s[n], Value(t[..n]), t[n], Place(n));
      ValueInjective(s[..n], t[..n]);
      assert s == s[..n] + [s[n]] && t == t[..n] + [t[n]];
    }
  }

  lemma TopEqual(a: nat, x: Limb, b: nat, y: Limb, p: nat)
    requires a < p && b < p && a + x * p == b + y * p
    ensures x == y && a == b
  {
    if x < y { Apart(a, x, b, y, p); } else if y < x { Apart(b, y, a, x, p); }
  }

  /** A smaller top limb makes a smaller number. */
  lemma Apart(a: nat, x: Limb, b: nat, y: Limb, p: nat)
    requires a < p && x < y
    ensures a + x * p < b + y * p
  {
    assert (x + 1) * p <= y * p;
    assert (x + 1) * p == x * p + p;
  }

  /** The residue of `p` is the `v` that differs from it by a multiple of `m`. */
  lemma ResidueIs(v: nat, q: int, m: nat, p: int)
    requires v < m && v + q * m == p
    ensures v == p % m
  {
    DivMod(p, m, q, v);
  }

  lemma SmallMultiple(k: int, m: nat)
    requires 0 - m < k * m < m
    ensures k == 0
  {
    if k >= 1 { MulMonotone(1, k, m); } else if k <= -1 { MulMonotone(k, -1, m); }
  }

  lemma DivMod(p: int, m: nat, q: int, r: nat)
    requires r < m && p == q * m + r
    ensures p / m == q && p % m == r
  {
    var d, e := p / m, p % m;
    assert p == d * m + e;
    assert (d - q) * m == d * m - q * m;
    SmallMultiple(d - q, m);
  }

  // ---------------------------------------------------------------- bitwise or

  function Or(x: nat, y: nat): nat {
    if x == 0 && y == 0 then 0
    else (if x % 2 == 1 || y % 2 == 1 then 1 else 0) + 2 * Or(x / 2, y / 2)
  }

  /** Numbers whose bits do not overlap are or-ed by adding. */
  lemma {:induction false} OrDisjoint(x: nat, y: nat, s: nat)
    requires x < Pow2(s) && y % Pow2(s) == 0
    ensures Or(x, y) == x + y
    decreases s
  {
    if s == 0 {
      OrZero(y);
    } else if x == 0 {
      OrZero(y);
    } else {
      EvenPart(y, Pow2(s - 1));
      OrDisjoint(x / 2, y / 2, s - 1);
    }
  }

  lemma {:induction false} OrZero(y: nat)
    ensures Or(0, y) == y
  {
    if y > 0 { OrZero(y / 2); }
  }

  lemma {:induction false} OrSymmetric(x: nat, y: nat)
    ensures Or(x, y) == Or(y, x)
  {
    if x > 0 || y > 0 { OrSymmetric(x / 2, y / 2); }
  }

  lemma EvenPart(y: nat, p: nat)
    requires p > 0 && y % (2 * p) == 0
    ensures y % 2 == 0 && (y / 2) % p == 0
  {
    var q := y / (2 * p);
    assert y == (2 * p) * q;
    assert y == 2 * (p * q);
    MultipleMod(q, p);
    assert p * q == q * p;
  }

  lemma MultipleMod(q: nat, p: nat)
    requires p > 0
    ensures (q * p) % p == 0 && (q * p) / p == q
  {
    DivMod(q * p, p, q, 0);
  }

  // ---------------------------------------------------------------- shifts within limbs

  /** A 32-bit left shift, dropping what leaves the limb. */
  function Shl(x: Limb, n: nat): Limb {
    (x * Pow2(n)) % BASE
  }

  function Shr(x: Limb, n: nat): Limb {
    AtMostSelf(x, Pow2(n));
    x / Pow2(n)
  }

  lemma AtMostSelf(x: nat, p: nat)
    requires p > 0
    ensures 0 <= x / p <= x
  {
    if x / p > x { MulMonotone(1, p, x / p); }
  }

  /** Shifting a limb left splits it between its own place and the next. */
  lemma Halves(x: Limb, s: nat)
    requires s <= 32
    ensures x * Pow2(s) == Shl(x, s) + Shr(x, 32 - s) * BASE
    ensures Shr(x, 32 - s) < Pow2(s) && Shl(x, s) % Pow2(s) == 0
    ensures Shl(x, s) <= BASE - Pow2(s)
  {
    Pow2Base();
    Pow2Add(s, 32 - s);
    HighBelow(x, Pow2(s));
    LowMultiple(x, Pow2(s), Pow2(32 - s));
  }

  lemma HighBelow(x: Limb, p: nat)
    requires p > 0
    ensures (x * p) / BASE < p
  {
    var d := (x * p) / BASE;
    MulMonotone(x, BASE - 1, p);
    if d >= p { MulMonotone(p, d, BASE); }
  }

  lemma LowMultiple(x: Limb, p: nat, q: nat)
    requires p > 0 && q > 0 && p * q == BASE
    ensures ((x * p) % BASE) % p == 0
    ensures (x * p) / BASE == x / q
    ensures (x * p) % BASE == (x % q) * p
    ensures (x * p) % BASE <= BASE - p
  {
    var d, e := x / q, x % q;
    assert x == d * q + e;
    assert x * p == d * (p * q) + e * p by {
      assert (d * q + e) * p == d * q * p + e * p;
      assert d * q * p == d * (p * q);
    }
    MulMonotone(e, q - 1, p);
    DivMod(x * p, BASE, d, e * p);
    MultipleMod(e, p);
  }

  // ---------------------------------------------------------------- one limb at a time

  /** Changing one limb changes the number by the difference at that place. */
  lemma {:induction false} ValueUpdate(s: seq<Limb>, i: nat, x: Limb)
    requires i < |s|
    ensures Value(s[i := x]) == Value(s) + (x - s[i]) * Place(i)
  {
    hide Place;
    var n := |s| - 1;
    var t := s[i := x];
    if i == n {
      assert t[..n] == s[..n];
      assert x * Place(n) - s[n] * Place(n) == (x - s[n]) * Place(n);
    } else {
      ValueUpdate(s[..n], i, x);
      assert t[..n] == s[..n][i := x];
    }
  }

  /** Writing the low part of `n` and carrying the high part adds `n - x` at this place. */
  lemma CarryStep(s: seq<Limb>, i: nat, n: nat)
    requires i < |s|
    ensures Value(s[i := n % BASE]) + (n / BASE) * Place(i + 1) == Value(s) + (n - s[i]) * Place(i)
  {
    hide Place, Value;
    ValueUpdate(s, i, n % BASE);
    PlaceStep(i);
    SplitCarry(n, s[i], Place(i));
  }

  lemma SplitCarry(n: nat, x: int, p: nat)
    ensures (n % BASE - x) * p + (n / BASE) * (p * BASE) == (n - x) * p
  {
    var lo, hi := n % BASE, n / BASE;
    assert n == hi * BASE + lo;
    assert hi * (p * BASE) == (hi * BASE) * p;
    assert (lo - x) * p + (hi * BASE) * p == (lo - x + hi * BASE) * p;
  }

  /** What a carry loop has when it has passed every limb. */
  lemma CarryEnd(s: seq<Limb>, carry: int, total: int)
    requires Value(s) + carry * Place(|s|) == total
    ensures Value(s) == total % Place(|s|)
  {
    hide Place, Value;
    ValueBound(s);
    ResidueIs(Value(s), carry, Place(|s|), total);
  }

  lemma AllSame(s: seq<Limb>, t: seq<Limb>)
    requires |s| == |t| && forall i :: 0 <= i < |s| ==> s[i] == t[i]
    ensures s == t
  {
  }

  lemma {:induction false} ValueComplement(s: seq<Limb>, t: seq<Limb>)
    requires |s| == |t| && forall i :: 0 <= i < |s| ==> t[i] == BASE - 1 - s[i]
    ensures Value(t) == Place(|s|) - 1 - Value(s)
  {
    hide Place;
    PlaceZero();
    if s != [] {
      var n := |s| - 1;
      ValueComplement(s[..n], t[..n]);
      PlaceStep(n);
      assert (BASE - 1 - s[n]) * Place(n) == Place(n) * BASE - Place(n) - s[n] * Place(n);
    }
  }

  /** A number whose limbs from `i + 1` up agree is ordered by limb `i`. */
  lemma TopDecides(s: seq<Limb>, t: seq<Limb>, i: nat)
    requires |s| == |t| && i < |s| && s[i + 1..] == t[i + 1..] && s[i] < t[i]
    ensures Value(s) < Value(t)
  {
    hide Place, Value;
    ValueSplit(s, i + 1);
    ValueSplit(t, i + 1);
    ValueStep(s, i);
    ValueStep(t, i);
    ValueBound(s[..i]);
    ValueBound(t[..i]);
    Apart(Value(s[..i]), s[i], Value(t[..i]), t[i], Place(i));
  }

  lemma TopLimb(s: seq<Limb>, pos: nat, n: nat)
    requires pos < |s| && n < 32 && Pow2(n) <= s[pos] < Pow2(n + 1)
    requires forall k :: pos < k < |s| ==> s[k] == 0
    ensures Pow2(32 * pos + n) <= Value(s) < Pow2(32 * pos + n + 1)
  {
    hide Value;
    ValueSplit(s, pos + 1);
    ValueZero(s[pos + 1..]);
    ValueStep(s, pos);
    ValueBound(s[..pos]);
    Pow2Add(32 * pos, n);
    Pow2Add(32 * pos, n + 1);
    Between(Value(s[..pos]), s[pos], Place(pos), Pow2(n), Pow2(n + 1));
  }

  lemma Between(v: nat, x: nat, p: nat, a: nat, b: nat)
    requires v < p && a <= x < b
    ensures p * a <= v + x * p < p * b
  {
    MulMonotone(a, x, p);
    MulMonotone(x, b - 1, p);
    assert (b - 1) * p == p * b - p;
  }
}
