/**
 * Errors that the Bech32 checksum detects: the generator has three consecutive powers of alpha
 * among its roots, so that any change of up to three symbols within 1023 is noticed.
 */
module Bech32Errors {
  import opened BchField
  import opened Bech32

  // ---------------------------------------------------------------- symbols as field elements

  function Pick(x: Symbol, mask: Symbol, k: Element): Element { if x & mask != 0 then k else 0 }

  /** The 32 symbols are a subfield; this is its basis. */
  function Embed(x: Symbol): Element {
    Add(Add(Add(Add(Pick(x, 1, 0x001), Pick(x, 2, 0x00e)), Pick(x, 4, 0x054)), Pick(x, 8, 0x358)), Pick(x, 16, 0x0bf))
  }

  lemma EmbedZero(x: Symbol)
    ensures Embed(x) == 0 <==> x == 0
  {
  }

  lemma PickBit(x: Symbol, y: Symbol, mask: Symbol)
    requires mask == 1 || mask == 2 || mask == 4 || mask == 8 || mask == 16
    ensures (x ^ y) & mask != 0 <==> (x & mask != 0) != (y & mask != 0)
  {
  }

  lemma PickTerm(p: Element, q: Element, x: Symbol, y: Symbol, mask: Symbol, k: Element)
    requires mask == 1 || mask == 2 || mask == 4 || mask == 8 || mask == 16
    ensures Add(Add(p, q), Pick(x ^ y, mask, k)) == Add(Add(p, Pick(x, mask, k)), Add(q, Pick(y, mask, k)))
  {
    hide Add;
    PickBit(x, y, mask);
    AddSelf(k);
    AddSelf(0);
    AddSwap(p, q, Pick(x, mask, k), Pick(y, mask, k));
  }

  lemma EmbedLinear(x: Symbol, y: Symbol)
    ensures Embed(x ^ y) == Add(Embed(x), Embed(y))
  {
    hide Add, Pick;
    AddSelf(0);
    AddSelf(Pick(x, 1, 0x001));
    AddSelf(Pick(y, 1, 0x001));
    AddSelf(Pick(x ^ y, 1, 0x001));
    PickTerm(0, 0, x, y, 1, 0x001);
    var p1, q1 := Pick(x, 1, 0x001), Pick(y, 1, 0x001);
    PickTerm(p1, q1, x, y, 2, 0x00e);
    var p2, q2 := Add(p1, Pick(x, 2, 0x00e)), Add(q1, Pick(y, 2, 0x00e));
    PickTerm(p2, q2, x, y, 4, 0x054);
    var p3, q3 := Add(p2, Pick(x, 4, 0x054)), Add(q2, Pick(y, 4, 0x054));
    PickTerm(p3, q3, x, y, 8, 0x358);
    var p4, q4 := Add(p3, Pick(x, 8, 0x358)), Add(q3, Pick(y, 8, 0x358));
    PickTerm(p4, q4, x, y, 16, 0x0bf);
  }

  /** Multiplication by the symbol 2. */
  function Twice(x: Symbol): Symbol { ((x & 15) << 1) ^ (if x & 16 != 0 then 9 else 0) }

  lemma HalfMul(x: Symbol)
    ensures Mul(0x0eb, Embed(Twice(x))) == Embed(x)
  {
  }

  lemma Half(x: Symbol)
    ensures Pow(99, Embed(Twice(x))) == Embed(x)
  {
    hide Pow, Mul, Embed, Twice;
    AlphaPowers();
    PowIsMul(99, Embed(Twice(x)));
    HalfMul(x);
  }

  // ---------------------------------------------------------------- polynomials at alpha^s

  /** The value at alpha^s of a polynomial, lowest coefficient first. */
  function Horner(s: nat, g: seq<Symbol>): Element {
    if g == [] then 0 else Add(Embed(g[0]), Pow(s, Horner(s, g[1..])))
  }

  lemma {:induction false} HornerSnoc(s: nat, g: seq<Symbol>, x: Symbol)
    ensures Horner(s, g + [x]) == Add(Horner(s, g), Pow(s * |g|, Embed(x)))
  {
    hide Pow, Add, Embed;
    if g == [] {
      NoPower(Embed(x));
      PowZero(s);
      AddSelf(Embed(x));
      assert ([x] + [])[1..] == [];
      assert Horner(s, []) == 0;
      assert Horner(s, [x]) == Add(Embed(x), Pow(s, 0));
      assert g + [x] == [x];
      assert s * 0 == 0;
    } else {
      var rest := g[1..];
      HornerSnoc(s, rest, x);
      assert (g + [x])[1..] == rest + [x];
      PowLinear(s, Horner(s, rest), Pow(s * |rest|, Embed(x)));
      PowAdd(s, s * |rest|, Embed(x));
      assert s + s * |rest| == s * |g|;
      AddAssociates(Embed(g[0]), Pow(s, Horner(s, rest)), Pow(s * |g|, Embed(x)));
    }
  }

  lemma {:induction false} HornerSum(s: nat, g: seq<Symbol>, k: seq<Symbol>)
    requires |g| == |k|
    ensures Horner(s, Sum(g, k)) == Add(Horner(s, g), Horner(s, k))
  {
    hide Pow, Add, Embed;
    if g == [] {
      AddSelf(0);
    } else {
      HornerSum(s, g[1..], k[1..]);
      assert Sum(g, k)[1..] == Sum(g[1..], k[1..]);
      PowLinear(s, Horner(s, g[1..]), Horner(s, k[1..]));
      EmbedLinear(g[0], k[0]);
      AddSwap(Embed(g[0]), Embed(k[0]), Pow(s, Horner(s, g[1..])), Pow(s, Horner(s, k[1..])));
    }
  }

  function Doubled(g: seq<Symbol>): (d: seq<Symbol>)
    ensures |d| == |g|
  {
    seq(|g|, i requires 0 <= i < |g| => Twice(g[i]))
  }

  lemma {:induction false} HornerHalf(s: nat, g: seq<Symbol>)
    ensures Pow(99, Horner(s, Doubled(g))) == Horner(s, g)
  {
    hide Pow, Add, Embed, Twice;
    if g == [] {
      PowZero(99);
    } else {
      var d := Doubled(g);
      HornerHalf(s, g[1..]);
      assert d[1..] == Doubled(g[1..]);
      PowLinear(99, Embed(d[0]), Pow(s, Horner(s, d[1..])));
      PowCommutes(99, s, Horner(s, d[1..]));
      Half(g[0]);
    }
  }

  // ---------------------------------------------------------------- the generator's roots

  /** The generator without its leading term, times a symbol. */
  function Gen(g: Symbol): bv32 {
    var c1 := Term(g & 1 != 0, 0x3b6a57b2);
    var c2 := Xor(c1, Term(g & 2 != 0, 0x26508e6d));
    var c4 := Xor(c2, Term(g & 4 != 0, 0x1ea119fa));
    var c8 := Xor(c4, Term(g & 8 != 0, 0x3d4233dd));
    Xor(c8, Term(g & 16 != 0, 0x2a1462b3))
  }

  /** The six symbols of a remainder, lowest first. */
  function Low(m: bv32): (g: seq<Symbol>)
    ensures |g| == 6
  {
    [Group(m, 5), Group(m, 4), Group(m, 3), Group(m, 2), Group(m, 1), Group(m, 0)]
  }

  /** What is left when the leading term of `g` times the generator stands for the rest of it. */
  function Gap(s: nat, g: Symbol): Element {
    Add(Horner(s, Low(Gen(g))), Pow(s * 6, Embed(g)))
  }

  lemma GenOne()
    ensures Low(Gen(1)) == [18, 29, 21, 20, 22, 29]
  {
  }

  lemma GenTwice()
    ensures Low(Gen(2)) == Doubled(Low(Gen(1))) && Low(Gen(4)) == Doubled(Low(Gen(2)))
    ensures Low(Gen(8)) == Doubled(Low(Gen(4))) && Low(Gen(16)) == Doubled(Low(Gen(8)))
  {
  }

  lemma TwiceOne()
    ensures Twice(1) == 2 && Twice(2) == 4 && Twice(4) == 8 && Twice(8) == 16
    ensures Embed(1) == 1 && Embed(29) == 0x3b2
  {
  }

  lemma RootSteps24()
    ensures Add(Embed(22), Mul(0x3f0, 0x3b2)) == 0x07d
    ensures Add(Embed(20), Mul(0x3f0, 0x07d)) == 0x07d
    ensures Add(Embed(21), Mul(0x3f0, 0x07d)) == 0x07c
    ensures Add(Embed(29), Mul(0x3f0, 0x07c)) == 0x0d4
    ensures Add(Embed(18), Mul(0x3f0, 0x0d4)) == 0x2ba
    ensures Mul(0x3f0, 0x3f0) == 0x24d
    ensures Mul(0x3f0, 0x24d) == 0x2b9
    ensures Mul(0x3f0, 0x2b9) == 0x0b9
    ensures Mul(0x3f0, 0x0b9) == 0x009
    ensures Mul(0x3f0, 0x009) == 0x2ba
  {
  }

  lemma Root24()
    ensures Gap(24, 1) == 0
  {
    hide Pow, Mul, Add, Embed, Gen;
    AlphaPowers();
    RootSteps24();
    RootFrom(24, 0x3f0, 0x07d, 0x07d, 0x07c, 0x0d4, 0x2ba, 0x24d, 0x2b9, 0x0b9, 0x009);
  }

  lemma RootSteps25()
    ensures Add(Embed(22), Mul(0x2c3, 0x3b2)) == 0x1d5
    ensures Add(Embed(20), Mul(0x2c3, 0x1d5)) == 0x3ad
    ensures Add(Embed(21), Mul(0x2c3, 0x3ad)) == 0x069
    ensures Add(Embed(29), Mul(0x2c3, 0x069)) == 0x3df
    ensures Add(Embed(18), Mul(0x2c3, 0x3df)) == 0x0a6
    ensures Mul(0x2c3, 0x2c3) == 0x372
    ensures Mul(0x2c3, 0x372) == 0x144
    ensures Mul(0x2c3, 0x144) == 0x1d6
    ensures Mul(0x2c3, 0x1d6) == 0x120
    ensures Mul(0x2c3, 0x120) == 0x0a6
  {
  }

  lemma Root25()
    ensures Gap(25, 1) == 0
  {
    hide Pow, Mul, Add, Embed, Gen;
    AlphaPowers();
    RootSteps25();
    RootFrom(25, 0x2c3, 0x1d5, 0x3ad, 0x069, 0x3df, 0x0a6, 0x372, 0x144, 0x1d6, 0x120);
  }

  lemma RootSteps26()
    ensures Add(Embed(22), Mul(0x0a5, 0x3b2)) == 0x285
    ensures Add(Embed(20), Mul(0x0a5, 0x285)) == 0x0aa
    ensures Add(Embed(21), Mul(0x0a5, 0x0aa)) == 0x137
    ensures Add(Embed(29), Mul(0x0a5, 0x137)) == 0x193
    ensures Add(Embed(18), Mul(0x0a5, 0x193)) == 0x098
    ensures Mul(0x0a5, 0x0a5) == 0x2ad
    ensures Mul(0x0a5, 0x2ad) == 0x066
    ensures Mul(0x0a5, 0x066) == 0x3aa
    ensures Mul(0x0a5, 0x3aa) == 0x27d
    ensures Mul(0x0a5, 0x27d) == 0x098
  {
  }

  lemma Root26()
    ensures Gap(26, 1) == 0
  {
    hide Pow, Mul, Add, Embed, Gen;
    AlphaPowers();
    RootSteps26();
    RootFrom(26, 0x0a5, 0x285, 0x0aa, 0x137, 0x193, 0x098, 0x2ad, 0x066, 0x3aa, 0x27d);
  }

  /** The value of the generator's tail at alpha^s, from its steps with `e` for alpha^s. */
  lemma RootFrom(s: nat, e: Element, h4: Element, h3: Element, h2: Element, h1: Element, h0: Element,
                 e2: Element, e3: Element, e4: Element, e5: Element)
    requires Pow(s, 1) == e
    requires Add(Embed(22), Mul(e, 0x3b2)) == h4 && Add(Embed(20), Mul(e, h4)) == h3
    requires Add(Embed(21), Mul(e, h3)) == h2 && Add(Embed(29), Mul(e, h2)) == h1
    requires Add(Embed(18), Mul(e, h1)) == h0
    requires Mul(e, e) == e2 && Mul(e, e2) == e3 && Mul(e, e3) == e4 && Mul(e, e4) == e5 && Mul(e, e5) == h0
    ensures Gap(s, 1) == 0
  {
    hide Pow, Mul, Add, Embed, Gen, Low, Twice;
    GenOne();
    TwiceOne();
    var g: seq<Symbol> := [18, 29, 21, 20, 22, 29];
    Unrolled(s, g);
    PowZero(s);
    AddSelf(Embed(29));
    PowIsMul(s, 0x3b2);
    PowIsMul(s, h4);
    PowIsMul(s, h3);
    PowIsMul(s, h2);
    PowIsMul(s, h1);
    PowIsMul(s, e);
    PowSum(s, s, e, e, e2);
    PowSum(s, s * 2, e, e2, e3);
    PowSum(s, s * 3, e, e3, e4);
    PowSum(s, s * 4, e, e4, e5);
    PowSum(s, s * 5, e, e5, h0);
    AddSelf(h0);
  }

  lemma Unrolled(s: nat, g: seq<Symbol>)
    requires |g| == 6
    ensures Horner(s, g) ==
      Add(Embed(g[0]), Pow(s, Add(Embed(g[1]), Pow(s, Add(Embed(g[2]), Pow(s,
      Add(Embed(g[3]), Pow(s, Add(Embed(g[4]), Pow(s, Add(Embed(g[5]), Pow(s, 0))))))))))))
  {
    hide Pow, Add, Embed;
    assert g[1..][1..] == g[2..];
    assert g[2..][1..] == g[3..];
    assert g[3..][1..] == g[4..];
    assert g[4..][1..] == g[5..];
    assert g[5..][1..] == [];
    assert Horner(s, []) == 0;
    assert Horner(s, g[5..]) == Add(Embed(g[5]), Pow(s, 0));
    assert Horner(s, g[4..]) == Add(Embed(g[4]), Pow(s, Horner(s, g[5..])));
    assert Horner(s, g[3..]) == Add(Embed(g[3]), Pow(s, Horner(s, g[4..])));
    assert Horner(s, g[2..]) == Add(Embed(g[2]), Pow(s, Horner(s, g[3..])));
    assert Horner(s, g[1..]) == Add(Embed(g[1]), Pow(s, Horner(s, g[2..])));
  }

  ghost predicate Root(s: nat) {
    s == 24 || s == 25 || s == 26
  }

  lemma GapOne(s: nat)
    requires Root(s)
    ensures Gap(s, 1) == 0
  {
    hide Gap;
    Root24();
    Root25();
    Root26();
  }

  lemma GapTwice(s: nat, g: Symbol)
    requires Low(Gen(Twice(g))) == Doubled(Low(Gen(g))) && Gap(s, g) == 0
    ensures Gap(s, Twice(g)) == 0
  {
    hide Pow, Add, Embed, Gen, Low, Twice, Horner;
    var t := Twice(g);
    PowLinear(99, Horner(s, Low(Gen(t))), Pow(s * 6, Embed(t)));
    HornerHalf(s, Low(Gen(g)));
    PowCommutes(99, s * 6, Embed(t));
    Half(g);
    PowInjective(99, Gap(s, t));
  }

  lemma GapBits(s: nat)
    requires Root(s)
    ensures Gap(s, 0) == 0 && Gap(s, 1) == 0 && Gap(s, 2) == 0 && Gap(s, 4) == 0 && Gap(s, 8) == 0 && Gap(s, 16) == 0
  {
    hide Gap, Gen, Low, Twice, Doubled;
    GenTwice();
    TwiceOne();
    GapOne(s);
    GapTwice(s, 1);
    GapTwice(s, 2);
    GapTwice(s, 4);
    GapTwice(s, 8);
    GapLinear(s, 1, 1);
    AddSelf(Gap(s, 1));
  }

  lemma GenLinear(x: Symbol, y: Symbol)
    ensures Gen(x ^ y) == Xor(Gen(x), Gen(y))
  {
    hide Xor, Term;
    BitTerm(0, 0, x, y, 1, 0x3b6a57b2);
    XorSelf(0);
    XorSelf(Term(x & 1 != 0, 0x3b6a57b2));
    XorSelf(Term(y & 1 != 0, 0x3b6a57b2));
    XorSelf(Term((x ^ y) & 1 != 0, 0x3b6a57b2));
    var p1, q1 := Term(x & 1 != 0, 0x3b6a57b2), Term(y & 1 != 0, 0x3b6a57b2);
    BitTerm(p1, q1, x, y, 2, 0x26508e6d);
    var p2, q2 := Xor(p1, Term(x & 2 != 0, 0x26508e6d)), Xor(q1, Term(y & 2 != 0, 0x26508e6d));
    BitTerm(p2, q2, x, y, 4, 0x1ea119fa);
    var p4, q4 := Xor(p2, Term(x & 4 != 0, 0x1ea119fa)), Xor(q2, Term(y & 4 != 0, 0x1ea119fa));
    BitTerm(p4, q4, x, y, 8, 0x3d4233dd);
    var p8, q8 := Xor(p4, Term(x & 8 != 0, 0x3d4233dd)), Xor(q4, Term(y & 8 != 0, 0x3d4233dd));
    BitTerm(p8, q8, x, y, 16, 0x2a1462b3);
  }

  lemma BitTerm(p: bv32, q: bv32, x: Symbol, y: Symbol, mask: Symbol, k: bv32)
    requires mask == 1 || mask == 2 || mask == 4 || mask == 8 || mask == 16
    ensures Xor(Xor(p, q), Term((x ^ y) & mask != 0, k))
         == Xor(Xor(p, Term(x & mask != 0, k)), Xor(q, Term(y & mask != 0, k)))
  {
    hide Xor, Term;
    PickBit(x, y, mask);
    TermLinear(x & mask != 0, y & mask != 0, k);
    XorSwap(p, q, Term(x & mask != 0, k), Term(y & mask != 0, k));
  }

  function Plus(x: Symbol, y: Symbol): Symbol { x ^ y }

  lemma GroupLinear0(m: bv32, n: bv32)
    ensures Group(Xor(m, n), 0) == Plus(Group(m, 0), Group(n, 0))
  {
  }

  lemma GroupLinear1(m: bv32, n: bv32)
    ensures Group(Xor(m, n), 1) == Plus(Group(m, 1), Group(n, 1))
  {
  }

  lemma GroupLinear2(m: bv32, n: bv32)
    ensures Group(Xor(m, n), 2) == Plus(Group(m, 2), Group(n, 2))
  {
  }

  lemma GroupLinear3(m: bv32, n: bv32)
    ensures Group(Xor(m, n), 3) == Plus(Group(m, 3), Group(n, 3))
  {
  }

  lemma GroupLinear4(m: bv32, n: bv32)
    ensures Group(Xor(m, n), 4) == Plus(Group(m, 4), Group(n, 4))
  {
  }

  lemma GroupLinear5(m: bv32, n: bv32)
    ensures Group(Xor(m, n), 5) == Plus(Group(m, 5), Group(n, 5))
  {
  }

  lemma SumAt(a: seq<Symbol>, b: seq<Symbol>, i: nat)
    requires i < |a| == |b|
    ensures Sum(a, b)[i] == Plus(a[i], b[i])
  {
  }

  lemma SumSix(a: seq<Symbol>, b: seq<Symbol>, c: seq<Symbol>)
    requires |a| == |b| == |c| == 6
    requires c[0] == Plus(a[0], b[0]) && c[1] == Plus(a[1], b[1]) && c[2] == Plus(a[2], b[2])
    requires c[3] == Plus(a[3], b[3]) && c[4] == Plus(a[4], b[4]) && c[5] == Plus(a[5], b[5])
    ensures Sum(a, b) == c
  {
    hide Plus, Sum;
    forall i | 0 <= i < 6
      ensures Sum(a, b)[i] == c[i]
    {
      SumAt(a, b, i);
    }
  }

  lemma LowLinear(m: bv32, n: bv32)
    ensures Low(Xor(m, n)) == Sum(Low(m), Low(n))
  {
    hide Group, Xor, Sum, Plus;
    GroupLinear0(m, n);
    GroupLinear1(m, n);
    GroupLinear2(m, n);
    GroupLinear3(m, n);
    GroupLinear4(m, n);
    GroupLinear5(m, n);
    SumSix(Low(m), Low(n), Low(Xor(m, n)));
  }

  lemma GapLinear(s: nat, x: Symbol, y: Symbol)
    ensures Gap(s, x ^ y) == Add(Gap(s, x), Gap(s, y))
  {
    hide Pow, Add, Embed, Gen, Low, Horner, Xor, Sum;
    GenLinear(x, y);
    LowLinear(Gen(x), Gen(y));
    HornerSum(s, Low(Gen(x)), Low(Gen(y)));
    EmbedLinear(x, y);
    PowLinear(s * 6, Embed(x), Embed(y));
    AddSwap(Horner(s, Low(Gen(x))), Horner(s, Low(Gen(y))), Pow(s * 6, Embed(x)), Pow(s * 6, Embed(y)));
  }

  lemma SymbolBits(g: Symbol)
    ensures g == (g & 1) ^ (g & 2) ^ (g & 4) ^ (g & 8) ^ (g & 16)
    ensures g & 1 == 0 || g & 1 == 1
    ensures g & 2 == 0 || g & 2 == 2
    ensures g & 4 == 0 || g & 4 == 4
    ensures g & 8 == 0 || g & 8 == 8
    ensures g & 16 == 0 || g & 16 == 16
  {
  }

  lemma GapZero(s: nat, x: Symbol, y: Symbol)
    requires Gap(s, x) == 0 && Gap(s, y) == 0
    ensures Gap(s, x ^ y) == 0
  {
    hide Gap;
    GapLinear(s, x, y);
    AddSelf(0);
  }

  /** At alpha^24, alpha^25 and alpha^26 the generator vanishes, times any symbol. */
  lemma GeneratorVanishes(s: nat, g: Symbol)
    requires Root(s)
    ensures Gap(s, g) == 0
  {
    hide Gap;
    GapBits(s);
    SymbolBits(g);
    var b1, b2, b4, b8, b16 := g & 1, g & 2, g & 4, g & 8, g & 16;
    GapZero(s, b1, b2);
    GapZero(s, b1 ^ b2, b4);
    GapZero(s, b1 ^ b2 ^ b4, b8);
    GapZero(s, b1 ^ b2 ^ b4 ^ b8, b16);
  }

  // ---------------------------------------------------------------- remainders at a root

  function Eval(s: nat, c: bv32): Element {
    Horner(s, Low(c))
  }

  lemma LeadsIs(c: bv32, mask: Symbol)
    requires c < LIMIT && (mask == 1 || mask == 2 || mask == 4 || mask == 8 || mask == 16)
    ensures Leads(c, mask as bv32) <==> Group(c, 0) & mask != 0
  {
  }

  lemma StepParts(c: bv32, v: Symbol)
    requires c < LIMIT
    ensures Step(c, v) == Xor(Shifted(c, v), Gen(Group(c, 0)))
  {
    hide Shifted, Xor, Term, Group, Leads;
    LeadsIs(c, 1);
    LeadsIs(c, 2);
    LeadsIs(c, 4);
    LeadsIs(c, 8);
    LeadsIs(c, 16);
    var g := Group(c, 0);
    var t1, t2, t4 := Term(g & 1 != 0, 0x3b6a57b2), Term(g & 2 != 0, 0x26508e6d), Term(g & 4 != 0, 0x1ea119fa);
    var t8, t16 := Term(g & 8 != 0, 0x3d4233dd), Term(g & 16 != 0, 0x2a1462b3);
    var s := Shifted(c, v);
    XorAssociates(s, t1, t2);
    XorAssociates(s, Xor(t1, t2), t4);
    XorAssociates(s, Xor(Xor(t1, t2), t4), t8);
    XorAssociates(s, Xor(Xor(Xor(t1, t2), t4), t8), t16);
  }

  lemma ShiftedGroups(c: bv32, v: Symbol)
    requires c < LIMIT
    ensures Group(Shifted(c, v), 0) == Group(c, 1) && Group(Shifted(c, v), 1) == Group(c, 2)
    ensures Group(Shifted(c, v), 2) == Group(c, 3) && Group(Shifted(c, v), 3) == Group(c, 4)
    ensures Group(Shifted(c, v), 4) == Group(c, 5) && Group(Shifted(c, v), 5) == v
  {
  }

  lemma ShiftedLow(c: bv32, v: Symbol)
    requires c < LIMIT
    ensures Low(Shifted(c, v)) == [v] + Low(c)[..5]
    ensures Low(c) == Low(c)[..5] + [Group(c, 0)]
  {
    hide Group, Shifted;
    ShiftedGroups(c, v);
  }

  /** A step of the remainder multiplies its value at a root by the root and adds the symbol. */
  lemma EvalStep(s: nat, c: bv32, v: Symbol)
    requires Root(s) && c < LIMIT
    ensures Eval(s, Step(c, v)) == Add(Embed(v), Pow(s, Eval(s, c)))
  {
    hide Step, Shifted, Xor, Gen, Group, Low, Pow, Add, Embed, Sum;
    var top, rest := Group(c, 0), Low(c)[..5];
    StepParts(c, v);
    LowLinear(Shifted(c, v), Gen(top));
    ShiftedLow(c, v);
    HornerSum(s, [v] + rest, Low(Gen(top)));
    HornerCons(s, v, rest);
    GeneratorVanishes(s, top);
    AddZero(Horner(s, Low(Gen(top))), Pow(s * 6, Embed(top)));
    HornerSnoc(s, rest, top);
    PowLinear(s, Horner(s, rest), Pow(s * 5, Embed(top)));
    PowAdd(s, s * 5, Embed(top));
    assert s + s * 5 == s * 6;
    AddAssociates(Embed(v), Pow(s, Horner(s, rest)), Pow(s * 6, Embed(top)));
  }

  lemma HornerCons(s: nat, v: Symbol, rest: seq<Symbol>)
    ensures Horner(s, [v] + rest) == Add(Embed(v), Pow(s, Horner(s, rest)))
  {
    hide Pow, Add, Embed;
    assert ([v] + rest)[1..] == rest;
  }

  lemma EvalNothing(s: nat)
    ensures Eval(s, 0) == 0
  {
    hide Pow, Add, Embed, Xor, Low;
    LowLinear(0, 0);
    XorSelf(0);
    HornerSum(s, Low(0), Low(0));
    AddSelf(Horner(s, Low(0)));
  }

  lemma {:induction false} EvalZeros(s: nat, c: bv32, n: nat)
    requires Root(s) && c < LIMIT
    ensures Eval(s, Run(c, Zeros(n))) == Pow(s * n, Eval(s, c))
  {
    hide Step, Eval, Pow, Add, Embed;
    if n == 0 {
      NoPower(Eval(s, c));
    } else {
      var z, r := Zeros(n - 1), Run(c, Zeros(n - 1));
      assert Zeros(n)[..n - 1] == z;
      EvalZeros(s, c, n - 1);
      RunBound(c, z);
      EvalStep(s, r, 0);
      EmbedZero(0);
      AddSelf(Pow(s, Eval(s, r)));
      PowAdd(s, s * (n - 1), Eval(s, c));
      assert s + s * (n - 1) == s * n;
    }
  }

  /** Reading zeros and then a symbol. */
  lemma EvalGap(s: nat, c: bv32, n: nat, x: Symbol)
    requires Root(s) && c < LIMIT && n > 0
    ensures Eval(s, Run(c, Zeros(n - 1) + [x])) == Add(Embed(x), Pow(s * n, Eval(s, c)))
    ensures Run(c, Zeros(n - 1) + [x]) < LIMIT
  {
    hide Step, Eval, Pow, Add, Embed, Run, Zeros;
    var z := Zeros(n - 1);
    RunSnoc(c, z, x);
    RunBound(c, z);
    RunBound(c, z + [x]);
    EvalStep(s, Run(c, z), x);
    EvalZeros(s, c, n - 1);
    PowAdd(s, s * (n - 1), Eval(s, c));
    assert s + s * (n - 1) == s * n;
  }

  // ---------------------------------------------------------------- three errors

  /** A list with symbols at two distances before the last one and zeros between. */
  function Three(a: Symbol, b: Symbol, c: Symbol, p: nat, q: nat): seq<Symbol>
    requires 0 < q < p
  {
    (Zeros(0) + [a]) + (Zeros(p - q - 1) + [b]) + (Zeros(q - 1) + [c])
  }

  lemma EvalThree(s: nat, a: Symbol, b: Symbol, c: Symbol, p: nat, q: nat)
    requires Root(s) && 0 < q < p
    ensures Eval(s, Run(0, Three(a, b, c, p, q)))
         == Add(Add(Pow(s * p, Embed(a)), Pow(s * q, Embed(b))), Embed(c))
  {
    hide Step, Eval, Pow, Add, Embed, Run, Zeros, Root;
    var u, v, w := Zeros(0) + [a], Zeros(p - q - 1) + [b], Zeros(q - 1) + [c];
    var r1 := Run(0, u);
    var r2 := Run(r1, v);
    RunAppend(0, u, v);
    RunAppend(0, u + v, w);
    EvalGap(s, 0, 1, a);
    EvalNothing(s);
    PowZero(s * 1);
    AddSelf(Embed(a));
    EvalGap(s, r1, p - q, b);
    EvalGap(s, r2, q, c);
    PowLinear(s * q, Embed(b), Pow(s * (p - q), Embed(a)));
    PowAdd(s * q, s * (p - q), Embed(a));
    assert s * q + s * (p - q) == s * p;
    AddCommutes(Embed(b), Pow(s * (p - q), Embed(a)));
    AddCommutes(Pow(s * q, Embed(b)), Pow(s * p, Embed(a)));
    AddCommutes(Embed(c), Add(Pow(s * p, Embed(a)), Pow(s * q, Embed(b))));
  }

  lemma PowShift(m: nat, n: nat, y: Element)
    ensures Pow((24 + m) * n, y) == Pow(m * n, Pow(24 * n, y))
  {
    hide Pow;
    PowAdd(m * n, 24 * n, y);
    assert m * n + 24 * n == (24 + m) * n;
  }

  /** Three symbols within 1023 leave nothing only when all are zero. */
  lemma ThreeLeaveNothing(a: Symbol, b: Symbol, c: Symbol, p: nat, q: nat)
    requires 0 < q < p < 1023 && Run(0, Three(a, b, c, p, q)) == 0
    ensures a == 0 && b == 0 && c == 0
  {
    hide Run, Three, Eval, Pow, Add, Embed;
    var y1, y2 := Pow(24 * p, Embed(a)), Pow(24 * q, Embed(b));
    EvalThree(24, a, b, c, p, q);
    EvalThree(25, a, b, c, p, q);
    EvalThree(26, a, b, c, p, q);
    EvalNothing(24);
    EvalNothing(25);
    EvalNothing(26);
    PowShift(1, p, Embed(a));
    PowShift(1, q, Embed(b));
    PowShift(2, p, Embed(a));
    PowShift(2, q, Embed(b));
    PowAdd(p, p, y1);
    PowAdd(q, q, y2);
    ThreeTerms(p, q, y1, y2, Embed(c));
    PowInjective(24 * p, Embed(a));
    PowInjective(24 * q, Embed(b));
    EmbedZero(a);
    EmbedZero(b);
    EmbedZero(c);
  }

  ghost predicate OnlyAt(v: seq<Symbol>, w: seq<Symbol>, i: nat, j: nat, k: nat)
    requires |v| == |w|
  {
    forall p :: 0 <= p < |v| && v[p] != w[p] ==> p == i || p == j || p == k
  }

  lemma SumPieces(v: seq<Symbol>, w: seq<Symbol>, i: nat, j: nat, k: nat)
    requires |v| == |w| && OnlyAt(v, w, i, j, k) && i < j < k < |v|
    ensures Sum(v, w)
         == Zeros(i) + Three(v[i] ^ w[i], v[j] ^ w[j], v[k] ^ w[k], k - i, k - j) + Zeros(|v| - 1 - k)
  {
    var s := Sum(v, w);
    var t := Zeros(i) + Three(v[i] ^ w[i], v[j] ^ w[j], v[k] ^ w[k], k - i, k - j) + Zeros(|v| - 1 - k);
    assert |s| == |t|;
    forall p | 0 <= p < |s|
      ensures s[p] == t[p]
    {
      SameSymbol(v[p]);
      if p != i && p != j && p != k {
        assert v[p] == w[p];
      }
    }
  }

  lemma SameSymbol(x: Symbol)
    ensures x ^ x == 0
  {
  }

  lemma {:induction false} RunZeros(n: nat)
    ensures Run(0, Zeros(n)) == 0
  {
    hide Step;
    if n > 0 {
      assert Zeros(n)[..n - 1] == Zeros(n - 1);
      RunZeros(n - 1);
      StepReach(0, 0, 0);
    }
  }

  lemma ScatteredChange(s: bv32, v: seq<Symbol>, w: seq<Symbol>, i: nat, j: nat, k: nat)
    requires |v| == |w| && OnlyAt(v, w, i, j, k) && i < j < k < |v| && k - i < 1023 && Run(s, v) == Run(s, w)
    ensures v[i] == w[i] && v[j] == w[j] && v[k] == w[k]
  {
    hide Run, Xor, Sum, Zeros, Three, OnlyAt;
    var a, b, c := v[i] ^ w[i], v[j] ^ w[j], v[k] ^ w[k];
    var t := Three(a, b, c, k - i, k - j);
    RunLinear(s, s, v, w);
    XorSelf(s);
    XorSelf(Run(s, v));
    SumPieces(v, w, i, j, k);
    RunAppend(0, Zeros(i) + t, Zeros(|v| - 1 - k));
    RunAppend(0, Zeros(i), t);
    RunZeros(i);
    RunBound(0, t);
    DifferenceSurvives(Run(0, t), |v| - 1 - k);
    ThreeLeaveNothing(a, b, c, k - i, k - j);
    SymbolsEqual(v[i], w[i]);
    SymbolsEqual(v[j], w[j]);
    SymbolsEqual(v[k], w[k]);
  }

  lemma SameLists(v: seq<Symbol>, w: seq<Symbol>, i: nat, j: nat, k: nat)
    requires |v| == |w| && OnlyAt(v, w, i, j, k) && i < |v| && j < |v| && k < |v|
    requires v[i] == w[i] && v[j] == w[j] && v[k] == w[k]
    ensures v == w
  {
  }

  /**
   * Two different lists that differ in at most three symbols, all within 1023 consecutive ones,
   * leave different remainders.
   */
  lemma ThreeErrorsChange(s: bv32, v: seq<Symbol>, w: seq<Symbol>, i: nat, j: nat, k: nat)
    requires |v| == |w| && OnlyAt(v, w, i, j, k) && v != w && i <= j <= k < |v| && k - i < 1023 && s < LIMIT
    ensures Run(s, v) != Run(s, w)
  {
    hide Run;
    if k - i < 6 {
      assert v[..i] == w[..i] && v[k + 1..] == w[k + 1..];
      assert v == v[..i] + v[i..k + 1] + v[k + 1..] && w == w[..i] + w[i..k + 1] + w[k + 1..];
      BurstChanges(s, v[..i], v[i..k + 1], w[i..k + 1], v[k + 1..]);
    } else if Run(s, v) == Run(s, w) {
      var middle := if i < j < k then j else i + 1;
      assert OnlyAt(v, w, i, middle, k);
      ScatteredChange(s, v, w, i, middle, k);
      SameLists(v, w, i, middle, k);
    }
  }

  /** Error detection in the data: two such lists never both verify. */
  lemma ThreeErrorsDetected(hrp: Text, v: seq<Symbol>, w: seq<Symbol>, i: nat, j: nat, k: nat)
    requires |v| == |w| && OnlyAt(v, w, i, j, k) && v != w && i <= j <= k < |v| && k - i < 1023
    ensures !(Verifies(hrp, v) && Verifies(hrp, w))
  {
    hide Run;
    var e := Expand(hrp);
    var n := |e|;
    forall p | 0 <= p < n + |v| && (e + v)[p] != (e + w)[p]
      ensures p == n + i || p == n + j || p == n + k
    {
      assert p >= n && (e + v)[p] == v[p - n] && (e + w)[p] == w[p - n];
    }
    assert e + v != e + w by { assert v == (e + v)[n..] && w == (e + w)[n..]; }
    ThreeErrorsChange(1, e + v, e + w, n + i, n + j, n + k);
  }

  /** Two human-readable parts that differ in one character. */
  ghost predicate OneCharacter(g: Text, h: Text, i: nat)
    requires |g| == |h|
  {
    i < |g| && g[i] != h[i] && forall p :: 0 <= p < |g| && p != i ==> g[p] == h[p]
  }

  lemma ExpandDiffers(g: Text, h: Text, i: nat)
    requires |g| == |h| && OneCharacter(g, h, i)
    ensures Expand(g) != Expand(h)
    ensures OnlyAt(Expand(g), Expand(h), i, |g| + 1 + i, |g| + 1 + i)
  {
    hide Expand;
    ExpandAt(g, i);
    ExpandAt(h, i);
    forall p | 0 <= p < 2 * |g| + 1 && p != i && p != |g| + 1 + i
      ensures Expand(g)[p] == Expand(h)[p]
    {
      if p < |g| {
        SameByte(g, h, p);
      } else if p > |g| {
        SameByte(g, h, p - |g| - 1);
      } else {
        ExpandAt(g, i);
      }
    }
  }

  lemma SameByte(g: Text, h: Text, p: nat)
    requires p < |g| == |h| && g[p] == h[p]
    ensures Expand(g)[p] == Expand(h)[p] && Expand(g)[|g| + 1 + p] == Expand(h)[|g| + 1 + p]
  {
  }

  /**
   * The human-readable part is covered too: change one character of it and at most one symbol of
   * the data, all within 1023 symbols, and the checksum does not fit any more.
   */
  lemma PrefixErrorDetected(g: Text, h: Text, v: seq<Symbol>, w: seq<Symbol>, i: nat, k: nat)
    requires |g| == |h| <= 1021 && OneCharacter(g, h, i) && |v| == |w|
    requires forall p :: 0 <= p < |v| && v[p] != w[p] ==> p == k
    requires v != w ==> 2 * |g| + 1 + k - i < 1023
    ensures !(Verifies(g, v) && Verifies(h, w))
  {
    hide Run, Expand;
    var n := 2 * |g| + 1;
    var x, y := Expand(g) + v, Expand(h) + w;
    var j := |g| + 1 + i;
    var last := if v == w then j else n + k;
    ExpandDiffers(g, h, i);
    assert x != y by { assert Expand(g) == x[..n] && Expand(h) == y[..n]; }
    forall p | 0 <= p < |x| && x[p] != y[p]
      ensures p == i || p == j || p == last
    {
      if p >= n {
        assert x[p] == v[p - n] && y[p] == w[p - n];
      }
    }
    if v != w {
      assert k < |v| by { var p :| 0 <= p < |v| && v[p] != w[p]; }
    }
    ThreeErrorsChange(1, x, y, i, j, last);
  }

  // ---------------------------------------------------------------- mistyped text

  lemma SameSymbolOf(a: Byte, b: Byte)
    requires SymbolOf(a) != -1 && SymbolOf(b) != -1
    ensures SymbolOf(a) as Symbol == SymbolOf(b) as Symbol <==> LowerCase(a) == LowerCase(b)
  {
    hide SymbolOf, CharOf, LowerCase;
    CharOfSymbol(a);
    CharOfSymbol(b);
    SymbolOfChar(SymbolOf(a));
    SymbolOfChar(SymbolOf(b));
    IntRoundTrip(SymbolOf(a));
    IntRoundTrip(SymbolOf(b));
  }

  /** Symbols differ exactly where the characters do, case aside. */
  lemma SymbolsDiffer(s: Text, t: Text)
    requires |s| == |t| && Spells(s) && Spells(t)
    ensures forall p :: 0 <= p < |s| ==> (Symbols(s)[p] == Symbols(t)[p] <==> LowerCase(s[p]) == LowerCase(t[p]))
  {
    hide SymbolOf, LowerCase;
    forall p | 0 <= p < |s|
      ensures Symbols(s)[p] == Symbols(t)[p] <==> LowerCase(s[p]) == LowerCase(t[p])
    {
      SameSymbolOf(s[p], t[p]);
    }
  }

  lemma DecodedParts(s: Text, pos: nat)
    requires DecodeText(s).Some? && LastSeparator(s) == pos
    ensures pos < |s| <= 90 && Spells(s[pos + 1..]) && Verifies(Lowered(s[..pos]), Symbols(s[pos + 1..]))
  {
    hide Verifies, Printable, MixedCase, SymbolOf, LastSeparator, Spells, Symbols;
  }

  /**
   * Mistyping one character before the separator of a valid text, and at most one after it, no
   * separator involved, gives a text that is not decoded.
   */
  lemma MistypedPrefixRejected(s: Text, t: Text, pos: nat, i: nat, k: nat)
    requires DecodeText(s).Some? && |s| == |t| && LastSeparator(s) == LastSeparator(t) == pos
    requires forall p :: 0 <= p < |s| && LowerCase(s[p]) != LowerCase(t[p]) ==> p == i || p == k
    requires i < pos < k < |s| && LowerCase(s[i]) != LowerCase(t[i])
    ensures DecodeText(t).None?
  {
    hide Verifies, LowerCase, SymbolOf, LastSeparator, Spells, Symbols, DecodeText;
    if DecodeText(t).Some? {
      DecodedParts(s, pos);
      DecodedParts(t, pos);
      var x, y := s[pos + 1..], t[pos + 1..];
      SymbolsDiffer(x, y);
      var g, h := Lowered(s[..pos]), Lowered(t[..pos]);
      assert OneCharacter(g, h, i) by {
        forall p | 0 <= p < pos
          ensures g[p] == LowerCase(s[p]) && h[p] == LowerCase(t[p])
        {
        }
      }
      forall p | 0 <= p < |x| && Symbols(x)[p] != Symbols(y)[p]
        ensures p == k - pos - 1
      {
        assert x[p] == s[pos + 1 + p] && y[p] == t[pos + 1 + p];
      }
      PrefixErrorDetected(g, h, Symbols(x), Symbols(y), i, k - pos - 1);
    }
  }
}
