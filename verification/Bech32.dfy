/**
 * Bech32 text encoding with its checksum: a remainder modulo a degree-six
 * polynomial over GF(32), handled as linear algebra over GF(2).
 */
module Bech32 {
  import opened Options

  type Byte = x: int | 0 <= x < 256
  type Text = seq<Byte>
  type Symbol = bv5

  // ---------------------------------------------------------------- the checksum polynomial

  function Xor(a: bv32, b: bv32): bv32 { a ^ b }

  /** The generator multiple added for one bit of the leading coefficient. */
  function Term(leads: bool, k: bv32): bv32 { if leads then k else 0 }

  /** Whether one bit of the leading coefficient is set. */
  predicate Leads(c: bv32, mask: bv32) { (c >> 25) & mask != 0 }

  function Shifted(c: bv32, v: Symbol): bv32 { ((c & 0x1ffffff) << 5) ^ (v as bv32) }

  /** One step of the remainder: multiply by x and add the next coefficient. */
  function Step(c: bv32, v: Symbol): bv32 {
    var c1 := Xor(Shifted(c, v), Term(Leads(c, 1), 0x3b6a57b2));
    var c2 := Xor(c1, Term(Leads(c, 2), 0x26508e6d));
    var c4 := Xor(c2, Term(Leads(c, 4), 0x1ea119fa));
    var c8 := Xor(c4, Term(Leads(c, 8), 0x3d4233dd));
    Xor(c8, Term(Leads(c, 16), 0x2a1462b3))
  }

  /** The remainder after reading a list of coefficients from state `c`. */
  function Run(c: bv32, v: seq<Symbol>): bv32 {
    if v == [] then c else Step(Run(c, v[..|v| - 1]), v[|v| - 1])
  }

  const LIMIT: bv32 := 0x4000_0000

  lemma StepBound(c: bv32, v: Symbol)
    requires c < LIMIT
    ensures Step(c, v) < LIMIT
  {
  }

  lemma LeadsLinear(c: bv32, d: bv32, mask: bv32)
    requires mask == 1 || mask == 2 || mask == 4 || mask == 8 || mask == 16
    ensures Leads(Xor(c, d), mask) <==> Leads(c, mask) != Leads(d, mask)
  {
  }

  lemma XorSelf(k: bv32)
    ensures Xor(k, k) == 0 && Xor(k, 0) == k && Xor(0, k) == k
  {
  }

  lemma XorAssociates(a: bv32, b: bv32, c: bv32)
    ensures Xor(Xor(a, b), c) == Xor(a, Xor(b, c))
  {
  }

  lemma XorCommutes(a: bv32, b: bv32)
    ensures Xor(a, b) == Xor(b, a)
  {
  }

  lemma XorSwap(a: bv32, b: bv32, c: bv32, d: bv32)
    ensures Xor(Xor(a, b), Xor(c, d)) == Xor(Xor(a, c), Xor(b, d))
  {
    hide Xor;
    XorAssociates(a, b, Xor(c, d));
    XorAssociates(b, c, d);
    XorCommutes(b, c);
    XorAssociates(c, b, d);
    XorAssociates(a, c, Xor(b, d));
  }

  lemma TermLinear(a: bool, b: bool, k: bv32)
    ensures Term(a != b, k) == Xor(Term(a, k), Term(b, k))
  {
    hide Xor;
    XorSelf(k);
    XorSelf(0);
  }

  lemma ShiftedLinear(c: bv32, d: bv32, v: Symbol, w: Symbol)
    ensures Shifted(Xor(c, d), v ^ w) == Xor(Shifted(c, v), Shifted(d, w))
  {
    ShiftedRaw(c, d, v, w);
  }

  lemma ShiftedRaw(c: bv32, d: bv32, v: Symbol, w: Symbol)
    ensures Shifted(c ^ d, v ^ w) == Shifted(c, v) ^ Shifted(d, w)
  {
  }

  /** Adding the term of one bit keeps a sum linear. */
  lemma AddTerm(p: bv32, q: bv32, c: bv32, d: bv32, mask: bv32, k: bv32)
    requires mask == 1 || mask == 2 || mask == 4 || mask == 8 || mask == 16
    ensures Xor(Xor(p, q), Term(Leads(Xor(c, d), mask), k))
         == Xor(Xor(p, Term(Leads(c, mask), k)), Xor(q, Term(Leads(d, mask), k)))
  {
    hide Xor, Leads, Term;
    LeadsLinear(c, d, mask);
    TermLinear(Leads(c, mask), Leads(d, mask), k);
    XorSwap(p, q, Term(Leads(c, mask), k), Term(Leads(d, mask), k));
  }

  /** A step is linear over GF(2). */
  lemma StepLinear(c: bv32, d: bv32, v: Symbol, w: Symbol)
    ensures Step(Xor(c, d), v ^ w) == Xor(Step(c, v), Step(d, w))
  {
    hide Xor, Shifted, Term, Leads;
    ShiftedLinear(c, d, v, w);
    var p0, q0 := Shifted(c, v), Shifted(d, w);
    AddTerm(p0, q0, c, d, 1, 0x3b6a57b2);
    var p1, q1 := Xor(p0, Term(Leads(c, 1), 0x3b6a57b2)), Xor(q0, Term(Leads(d, 1), 0x3b6a57b2));
    AddTerm(p1, q1, c, d, 2, 0x26508e6d);
    var p2, q2 := Xor(p1, Term(Leads(c, 2), 0x26508e6d)), Xor(q1, Term(Leads(d, 2), 0x26508e6d));
    AddTerm(p2, q2, c, d, 4, 0x1ea119fa);
    var p4, q4 := Xor(p2, Term(Leads(c, 4), 0x1ea119fa)), Xor(q2, Term(Leads(d, 4), 0x1ea119fa));
    AddTerm(p4, q4, c, d, 8, 0x3d4233dd);
    var p8, q8 := Xor(p4, Term(Leads(c, 8), 0x3d4233dd)), Xor(q4, Term(Leads(d, 8), 0x3d4233dd));
    AddTerm(p8, q8, c, d, 16, 0x2a1462b3);
  }

  /** Multiplying by x loses nothing: only zero steps to zero. */
  lemma StepInjective(c: bv32)
    requires c < LIMIT && Step(c, 0) == 0
    ensures c == 0
  {
    hide Step;
    StepIs(c, 0);
    FlatInjective(c);
  }

  /** A step written out in one expression. */
  function Flat(c: bv32, v: Symbol): bv32 {
    Shifted(c, v) ^ Term(Leads(c, 1), 0x3b6a57b2) ^ Term(Leads(c, 2), 0x26508e6d) ^ Term(Leads(c, 4), 0x1ea119fa)
    ^ Term(Leads(c, 8), 0x3d4233dd) ^ Term(Leads(c, 16), 0x2a1462b3)
  }

  lemma StepIs(c: bv32, v: Symbol)
    ensures Step(c, v) == Flat(c, v)
  {
    hide Shifted, Term, Leads;
  }

  lemma FlatInjective(c: bv32)
    requires c < LIMIT && Flat(c, 0) == 0
    ensures c == 0
  {
  }

  lemma StepSmall(c: bv32, v: Symbol)
    requires c < 0x200_0000
    ensures Step(c, v) == (c << 5) ^ (v as bv32)
  {
    hide Step;
    StepIs(c, v);
    FlatSmall(c, v);
  }

  lemma FlatSmall(c: bv32, v: Symbol)
    requires c < 0x200_0000
    ensures Flat(c, v) == (c << 5) ^ (v as bv32)
  {
  }

  // ---------------------------------------------------------------- whole lists

  function Zeros(n: nat): (z: seq<Symbol>)
    ensures |z| == n
  {
    seq(n, i => 0)
  }

  /** Two lists of symbols added position by position. */
  function Sum(v: seq<Symbol>, w: seq<Symbol>): (s: seq<Symbol>)
    requires |v| == |w|
    ensures |s| == |v|
  {
    seq(|v|, i requires 0 <= i < |v| => v[i] ^ w[i])
  }

  lemma {:induction false} RunBound(c: bv32, v: seq<Symbol>)
    requires c < LIMIT
    ensures Run(c, v) < LIMIT
  {
    hide Step;
    if v != [] {
      RunBound(c, v[..|v| - 1]);
      StepBound(Run(c, v[..|v| - 1]), v[|v| - 1]);
    }
  }

  lemma {:induction false} RunAppend(c: bv32, a: seq<Symbol>, b: seq<Symbol>)
    ensures Run(c, a + b) == Run(Run(c, a), b)
  {
    hide Step;
    if b == [] {
      assert a + b == a;
    } else {
      var n := |b| - 1;
      RunAppend(c, a, b[..n]);
      assert (a + b)[..|a + b| - 1] == a + b[..n];
    }
  }

  /** The remainder of a sum is the sum of the remainders. */
  lemma {:induction false} RunLinear(c: bv32, d: bv32, v: seq<Symbol>, w: seq<Symbol>)
    requires |v| == |w|
    ensures Run(Xor(c, d), Sum(v, w)) == Xor(Run(c, v), Run(d, w))
  {
    hide Step, Xor;
    if v != [] {
      var n := |v| - 1;
      RunLinear(c, d, v[..n], w[..n]);
      assert Sum(v, w)[..n] == Sum(v[..n], w[..n]);
      StepLinear(Run(c, v[..n]), Run(d, w[..n]), v[n], w[n]);
    }
  }

  lemma SumSelf(v: seq<Symbol>)
    ensures Sum(v, v) == Zeros(|v|)
  {
    assert forall i :: 0 <= i < |v| ==> v[i] ^ v[i] == 0;
  }

  lemma SumZeros(v: seq<Symbol>)
    ensures Sum(Zeros(|v|), v) == v
  {
    assert forall i :: 0 <= i < |v| ==> 0 ^ v[i] == v[i];
  }

  /** A difference never dies out however much follows. */
  lemma {:induction false} DifferenceSurvives(c: bv32, n: nat)
    requires c < LIMIT && Run(c, Zeros(n)) == 0
    ensures c == 0
  {
    hide Step;
    if n > 0 {
      assert Zeros(n)[..n - 1] == Zeros(n - 1);
      RunBound(c, Zeros(n - 1));
      StepInjective(Run(c, Zeros(n - 1)));
      DifferenceSurvives(c, n - 1);
    }
  }

  /** How large the remainder of `n` symbols from zero can be. */
  function Reach(n: nat): bv32 {
    if n == 0 then 1 else if n == 1 then 0x20 else if n == 2 then 0x400 else if n == 3 then 0x8000
    else if n == 4 then 0x10_0000 else if n == 5 then 0x200_0000 else LIMIT
  }

  lemma ShiftReach(c: bv32, v: Symbol, n: nat)
    requires n < 6 && c < Reach(n)
    ensures c < 0x200_0000
    ensures (c << 5) ^ (v as bv32) < Reach(n + 1)
    ensures (c << 5) ^ (v as bv32) == 0 <==> c == 0 && v == 0
  {
  }

  lemma StepReach(c: bv32, v: Symbol, n: nat)
    requires n < 6 && c < Reach(n)
    ensures Step(c, v) < Reach(n + 1)
    ensures Step(c, v) == 0 <==> c == 0 && v == 0
  {
    hide Step, Reach;
    ShiftReach(c, v, n);
    StepSmall(c, v);
  }

  /** Up to six symbols are read back unchanged: only zeros leave nothing. */
  lemma {:induction false} SmallRun(v: seq<Symbol>)
    requires |v| <= 6
    ensures Run(0, v) < Reach(|v|)
    ensures Run(0, v) == 0 ==> v == Zeros(|v|)
  {
    hide Step;
    if v != [] {
      var n := |v| - 1;
      SmallRun(v[..n]);
      hide Reach;
      StepReach(Run(0, v[..n]), v[n], n);
      if Run(0, v) == 0 {
        assert v == v[..n] + [v[n]];
        assert Zeros(n) + [0] == Zeros(n + 1);
      }
    }
  }

  lemma SumZeroEqual(u: seq<Symbol>, w: seq<Symbol>)
    requires |u| == |w| && Sum(u, w) == Zeros(|u|)
    ensures u == w
  {
    forall i | 0 <= i < |u|
      ensures u[i] == w[i]
    {
      assert Sum(u, w)[i] == u[i] ^ w[i] == 0;
      SymbolsEqual(u[i], w[i]);
    }
  }

  lemma SymbolsEqual(x: Symbol, y: Symbol)
    requires x ^ y == 0
    ensures x == y
  {
  }

  /**
   * Two lists that differ only within six consecutive symbols have different
   * remainders, however long they are.
   */
  lemma BurstChanges(c: bv32, a: seq<Symbol>, u: seq<Symbol>, w: seq<Symbol>, b: seq<Symbol>)
    requires c < LIMIT && |u| == |w| <= 6 && u != w
    ensures Run(c, a + u + b) != Run(c, a + w + b)
  {
    hide Run, Xor, Sum, Zeros;
    var p := Run(c, a);
    var s, t := Run(p, u), Run(p, w);
    RunAppend(c, a, u);
    RunAppend(c, a, w);
    RunAppend(c, a + u, b);
    RunAppend(c, a + w, b);
    RunLinear(p, p, u, w);
    XorSelf(p);
    SmallRun(Sum(u, w));
    if Run(s, b) == Run(t, b) {
      RunLinear(s, t, b, b);
      SumSelf(b);
      XorSelf(Run(s, b));
      RunBound(0, Sum(u, w));
      DifferenceSurvives(Xor(s, t), |b|);
      SumZeroEqual(u, w);
    }
  }

  // ---------------------------------------------------------------- checksums

  /** The human-readable part as symbols: high bits, a zero, low bits. */
  function Expand(hrp: Text): (e: seq<Symbol>)
    ensures |e| == 2 * |hrp| + 1
  {
    seq(|hrp|, i requires 0 <= i < |hrp| => (hrp[i] / 32) as Symbol)
    + [0]
    + seq(|hrp|, i requires 0 <= i < |hrp| => (hrp[i] % 32) as Symbol)
  }

  /** Each character is there, its three high bits before the zero and its five low bits after it. */
  lemma ExpandAt(hrp: Text, i: nat)
    requires i < |hrp|
    ensures 32 * (Expand(hrp)[i] as int) + Expand(hrp)[|hrp| + 1 + i] as int == hrp[i]
    ensures Expand(hrp)[i] < 8 && Expand(hrp)[|hrp|] == 0
  {
    IntRoundTrip(hrp[i] / 32);
    IntRoundTrip(hrp[i] % 32);
    SmallSymbol(hrp[i] / 32);
  }

  lemma SmallSymbol(v: int)
    requires 0 <= v < 8
    ensures v as Symbol < 8
  {
  }

  predicate Verifies(hrp: Text, values: seq<Symbol>) {
    Run(1, Expand(hrp) + values) == 1
  }

  /** The five-bit group at position `i` of a 30-bit number, from the top. */
  function Group(mod: bv32, i: nat): Symbol
    requires i < 6
  {
    if i == 0 then ((mod >> 25) & 31) as Symbol else if i == 1 then ((mod >> 20) & 31) as Symbol
    else if i == 2 then ((mod >> 15) & 31) as Symbol else if i == 3 then ((mod >> 10) & 31) as Symbol
    else if i == 4 then ((mod >> 5) & 31) as Symbol else (mod & 31) as Symbol
  }

  function Groups(mod: bv32): (g: seq<Symbol>)
    ensures |g| == 6
  {
    [Group(mod, 0), Group(mod, 1), Group(mod, 2), Group(mod, 3), Group(mod, 4), Group(mod, 5)]
  }

  function Checksum(hrp: Text, values: seq<Symbol>): (c: seq<Symbol>)
    ensures |c| == 6
  {
    Groups(Xor(Run(1, Expand(hrp) + values + Zeros(6)), 1))
  }

  lemma RunSnoc(c: bv32, v: seq<Symbol>, x: Symbol)
    ensures Run(c, v + [x]) == Step(Run(c, v), x)
  {
    hide Step;
    assert (v + [x])[..|v|] == v;
  }

  /** Five more bits appended to a short number. */
  predicate Joins(c: bv32, g: Symbol, next: bv32) {
    c < 0x200_0000 && (c << 5) ^ (g as bv32) == next
  }

  /** The leading `n` groups of a number. */
  function Leading(m: bv32, n: nat): bv32
    requires n <= 6
  {
    if n == 0 then 0 else if n == 1 then m >> 25 else if n == 2 then m >> 20 else if n == 3 then m >> 15
    else if n == 4 then m >> 10 else if n == 5 then m >> 5 else m
  }

  lemma ReadGroup(v: seq<Symbol>, c: bv32, g: Symbol, next: bv32)
    requires Run(0, v) == c && Joins(c, g, next)
    ensures Run(0, v + [g]) == next
  {
    hide Run, Step;
    RunSnoc(0, v, g);
    StepSmall(c, g);
  }

  lemma Join0(m: bv32)
    requires m < LIMIT
    ensures Joins(Leading(m, 0), Group(m, 0), Leading(m, 1))
  {
  }

  lemma Join1(m: bv32)
    requires m < LIMIT
    ensures Joins(Leading(m, 1), Group(m, 1), Leading(m, 2))
  {
  }

  lemma Join2(m: bv32)
    requires m < LIMIT
    ensures Joins(Leading(m, 2), Group(m, 2), Leading(m, 3))
  {
  }

  lemma Join3(m: bv32)
    requires m < LIMIT
    ensures Joins(Leading(m, 3), Group(m, 3), Leading(m, 4))
  {
  }

  lemma Join4(m: bv32)
    requires m < LIMIT
    ensures Joins(Leading(m, 4), Group(m, 4), Leading(m, 5))
  {
  }

  lemma Join5(m: bv32)
    requires m < LIMIT
    ensures Joins(Leading(m, 5), Group(m, 5), Leading(m, 6))
  {
  }

  /** The groups of a number, read from zero, give the number back. */
  lemma GroupsReadBack(m: bv32)
    requires m < LIMIT
    ensures Run(0, Groups(m)) == m
  {
    hide Run, Group, Leading, Joins;
    Join0(m);
    Join1(m);
    Join2(m);
    Join3(m);
    Join4(m);
    Join5(m);
    LeadingEnds(m);
    var g := Groups(m);
    RunNothing(0);
    ReadGroup([], Leading(m, 0), g[0], Leading(m, 1));
    assert [] + [g[0]] == [g[0]];
    ReadGroup([g[0]], Leading(m, 1), g[1], Leading(m, 2));
    assert [g[0]] + [g[1]] == [g[0], g[1]];
    ReadGroup([g[0], g[1]], Leading(m, 2), g[2], Leading(m, 3));
    assert [g[0], g[1]] + [g[2]] == [g[0], g[1], g[2]];
    ReadGroup([g[0], g[1], g[2]], Leading(m, 3), g[3], Leading(m, 4));
    assert [g[0], g[1], g[2]] + [g[3]] == [g[0], g[1], g[2], g[3]];
    ReadGroup([g[0], g[1], g[2], g[3]], Leading(m, 4), g[4], Leading(m, 5));
    assert [g[0], g[1], g[2], g[3]] + [g[4]] == [g[0], g[1], g[2], g[3], g[4]];
    ReadGroup([g[0], g[1], g[2], g[3], g[4]], Leading(m, 5), g[5], Leading(m, 6));
    assert [g[0], g[1], g[2], g[3], g[4]] + [g[5]] == g;
  }

  lemma LeadingEnds(m: bv32)
    ensures Leading(m, 0) == 0 && Leading(m, 6) == m
  {
  }

  lemma RunNothing(c: bv32)
    ensures Run(c, []) == c
  {
  }

  lemma LowFlipped(r: bv32)
    requires r < LIMIT
    ensures Xor(r, 1) < LIMIT && Xor(r, Xor(r, 1)) == 1
  {
  }

  /** The checksum made for any human-readable part and data verifies. */
  lemma ChecksumVerifies(hrp: Text, values: seq<Symbol>)
    ensures Verifies(hrp, values + Checksum(hrp, values))
  {
    hide Run, Xor, Sum, Zeros, Groups;
    var x := Expand(hrp) + values;
    var p := Run(1, x);
    var r := Run(p, Zeros(6));
    var g := Checksum(hrp, values);
    assert Expand(hrp) + (values + g) == x + g;
    RunAppend(1, x, g);
    RunAppend(1, x, Zeros(6));
    RunBound(1, x);
    RunBound(p, Zeros(6));
    LowFlipped(r);
    GroupsReadBack(Xor(r, 1));
    RunLinear(p, 0, Zeros(6), g);
    XorSelf(p);
    SumZeros(g);
  }

  /** No other six symbols verify. */
  lemma ChecksumUnique(hrp: Text, values: seq<Symbol>, c: seq<Symbol>)
    requires |c| == 6 && Verifies(hrp, values + c)
    ensures c == Checksum(hrp, values)
  {
    hide Run, Checksum;
    ChecksumVerifies(hrp, values);
    var x, g := Expand(hrp) + values, Checksum(hrp, values);
    assert Expand(hrp) + (values + g) == x + g + [] && Expand(hrp) + (values + c) == x + c + [];
    if c != g { BurstChanges(1, x, c, g, []); }
  }

  /**
   * Error detection: two different lists of data that agree outside some six
   * consecutive symbols never both verify, at any length.
   */
  lemma BurstDetected(hrp: Text, v: seq<Symbol>, w: seq<Symbol>, i: nat)
    requires |v| == |w| && v != w && i <= |v|
    requires forall k :: 0 <= k < |v| && v[k] != w[k] ==> i <= k < i + 6
    ensures !(Verifies(hrp, v) && Verifies(hrp, w))
  {
    hide Run;
    var j := if i + 6 <= |v| then i + 6 else |v|;
    var e := Expand(hrp);
    assert v[..i] == w[..i] && v[j..] == w[j..];
    Pieces(e, v, i, j);
    Pieces(e, w, i, j);
    PiecesDiffer(v, w, i, j);
    BurstChanges(1, e + v[..i], v[i..j], w[i..j], v[j..]);
  }

  lemma Pieces(e: seq<Symbol>, v: seq<Symbol>, i: nat, j: nat)
    requires i <= j <= |v|
    ensures e + v == (e + v[..i]) + v[i..j] + v[j..]
  {
  }

  lemma PiecesDiffer(v: seq<Symbol>, w: seq<Symbol>, i: nat, j: nat)
    requires |v| == |w| && i <= j <= |v| && v[..i] == w[..i] && v[j..] == w[j..] && v != w
    ensures v[i..j] != w[i..j]
  {
    assert v == v[..i] + v[i..j] + v[j..];
    assert w == w[..i] + w[i..j] + w[j..];
  }

  // ---------------------------------------------------------------- text

  const SEPARATOR: Byte := 49

  /** The character of a symbol: qpzry9x8 gf2tvdw0 s3jn54kh ce6mua7l. */
  function CharOf(v: int): (c: Byte)
    ensures 33 <= c <= 126 && c != SEPARATOR && !IsUpper(c)
  {
    if v == 0 then 113 else if v == 1 then 112 else if v == 2 then 122 else if v == 3 then 114
    else if v == 4 then 121 else if v == 5 then 57 else if v == 6 then 120 else if v == 7 then 56
    else if v == 8 then 103 else if v == 9 then 102 else if v == 10 then 50 else if v == 11 then 116
    else if v == 12 then 118 else if v == 13 then 100 else if v == 14 then 119 else if v == 15 then 48
    else if v == 16 then 115 else if v == 17 then 51 else if v == 18 then 106 else if v == 19 then 110
    else if v == 20 then 53 else if v == 21 then 52 else if v == 22 then 107 else if v == 23 then 104
    else if v == 24 then 99 else if v == 25 then 101 else if v == 26 then 54 else if v == 27 then 109
    else if v == 28 then 117 else if v == 29 then 97 else if v == 30 then 55
    else 108
  }

  /** The symbol of a character of either case, or -1. */
  function SymbolOf(c: int): (v: int)
    ensures -1 <= v < 32
  {
    if c == 113 || c == 81 then 0 else if c == 112 || c == 80 then 1 else if c == 122 || c == 90 then 2
    else if c == 114 || c == 82 then 3 else if c == 121 || c == 89 then 4 else if c == 57 then 5
    else if c == 120 || c == 88 then 6 else if c == 56 then 7 else if c == 103 || c == 71 then 8
    else if c == 102 || c == 70 then 9 else if c == 50 then 10 else if c == 116 || c == 84 then 11
    else if c == 118 || c == 86 then 12 else if c == 100 || c == 68 then 13 else if c == 119 || c == 87 then 14
    else if c == 48 then 15 else if c == 115 || c == 83 then 16 else if c == 51 then 17
    else if c == 106 || c == 74 then 18 else if c == 110 || c == 78 then 19 else if c == 53 then 20
    else if c == 52 then 21 else if c == 107 || c == 75 then 22 else if c == 104 || c == 72 then 23
    else if c == 99 || c == 67 then 24 else if c == 101 || c == 69 then 25 else if c == 54 then 26
    else if c == 109 || c == 77 then 27 else if c == 117 || c == 85 then 28 else if c == 97 || c == 65 then 29
    else if c == 55 then 30 else if c == 108 || c == 76 then 31
    else -1
  }

  lemma SymbolOfChar(v: int)
    requires 0 <= v < 32
    ensures SymbolOf(CharOf(v)) == v
  {
  }

  lemma CharOfSymbol(c: Byte)
    requires SymbolOf(c) != -1
    ensures CharOf(SymbolOf(c)) == LowerCase(c)
  {
  }

  predicate IsUpper(c: Byte) { 65 <= c <= 90 }

  predicate IsLower(c: Byte) { 97 <= c <= 122 }

  function LowerCase(c: Byte): Byte { if IsUpper(c) then c + 32 else c }

  function Lowered(s: Text): (l: Text)
    ensures |l| == |s|
  {
    seq(|s|, i requires 0 <= i < |s| => LowerCase(s[i]))
  }

  function Spelled(v: seq<Symbol>): (s: Text)
    ensures |s| == |v|
  {
    seq(|v|, i requires 0 <= i < |v| => CharOf(v[i] as int))
  }

  function EncodeText(hrp: Text, values: seq<Symbol>): Text {
    hrp + [SEPARATOR] + Spelled(values + Checksum(hrp, values))
  }

  predicate Printable(s: Text) { forall i :: 0 <= i < |s| ==> 33 <= s[i] <= 126 }

  predicate MixedCase(s: Text) {
    (exists i :: 0 <= i < |s| && IsLower(s[i])) && (exists i :: 0 <= i < |s| && IsUpper(s[i]))
  }

  /** The last separator, or -1. */
  function LastSeparator(s: Text): (p: int)
    ensures -1 <= p < |s|
  {
    if s == [] then -1 else if s[|s| - 1] == SEPARATOR then |s| - 1 else LastSeparator(s[..|s| - 1])
  }

  predicate Spells(s: Text) { forall i :: 0 <= i < |s| ==> SymbolOf(s[i]) != -1 }

  function Symbols(s: Text): (v: seq<Symbol>)
    requires Spells(s)
    ensures |v| == |s|
  {
    seq(|s|, i requires 0 <= i < |s| => SymbolOf(s[i]) as Symbol)
  }

  function DecodeText(s: Text): Option<(Text, seq<Symbol>)> {
    var pos := LastSeparator(s);
    if !Printable(s) || MixedCase(s) || |s| > 90 || pos <= 0 || pos + 7 > |s| || !Spells(s[pos + 1..]) then None
    else
      var hrp, values := Lowered(s[..pos]), Symbols(s[pos + 1..]);
      if Verifies(hrp, values) then Some((hrp, values[..|values| - 6])) else None
  }

  lemma {:induction false} LastSeparatorIs(a: Text, b: Text)
    requires SEPARATOR !in b
    ensures LastSeparator(a + [SEPARATOR] + b) == |a|
  {
    var s := a + [SEPARATOR] + b;
    if b != [] {
      var n := |b| - 1;
      assert s[|s| - 1] == b[n];
      assert s[..|s| - 1] == a + [SEPARATOR] + b[..n];
      LastSeparatorIs(a, b[..n]);
    }
  }

  lemma {:induction false} LastSeparatorAt(s: Text)
    ensures LastSeparator(s) >= 0 ==> s[LastSeparator(s)] == SEPARATOR
  {
    if s != [] && s[|s| - 1] != SEPARATOR { LastSeparatorAt(s[..|s| - 1]); }
  }

  lemma SymbolRoundTrip(v: Symbol)
    ensures 0 <= v as int < 32 && (v as int) as Symbol == v
  {
  }

  lemma SpelledRead(v: seq<Symbol>)
    ensures Spells(Spelled(v)) && Symbols(Spelled(v)) == v
    ensures Printable(Spelled(v)) && SEPARATOR !in Spelled(v)
    ensures forall i :: 0 <= i < |v| ==> !IsUpper(Spelled(v)[i])
  {
    hide CharOf, SymbolOf;
    forall i | 0 <= i < |v|
      ensures SymbolOf(Spelled(v)[i]) == v[i] as int && (v[i] as int) as Symbol == v[i]
    {
      SymbolRoundTrip(v[i]);
      SymbolOfChar(v[i] as int);
    }
  }

  lemma ReadSpelled(s: Text)
    requires Spells(s)
    ensures Spelled(Symbols(s)) == Lowered(s)
  {
    hide CharOf, SymbolOf;
    forall i | 0 <= i < |s|
      ensures Spelled(Symbols(s))[i] == Lowered(s)[i]
    {
      CharOfSymbol(s[i]);
      IntRoundTrip(SymbolOf(s[i]));
    }
  }

  lemma IntRoundTrip(v: int)
    requires 0 <= v < 32
    ensures (v as Symbol) as int == v
  {
  }

  /** A human-readable part that survives decoding: not empty, printable, no capitals. */
  predicate PlainHrp(hrp: Text) {
    |hrp| > 0 && Printable(hrp) && forall i :: 0 <= i < |hrp| ==> !IsUpper(hrp[i])
  }

  lemma LoweredSame(s: Text)
    ensures Lowered(s) == s <==> forall i :: 0 <= i < |s| ==> !IsUpper(s[i])
  {
    if Lowered(s) == s {
      forall i | 0 <= i < |s|
        ensures !IsUpper(s[i])
      {
        assert Lowered(s)[i] == s[i];
      }
    }
  }
}
