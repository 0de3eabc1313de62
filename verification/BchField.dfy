/**
 * The field with 1024 elements that holds the roots of the Bech32 generator: binary polynomials
 * in a primitive element alpha, ten bits wide, added by exclusive or and reduced by
 * alpha^10 = alpha^8 + alpha^5 + alpha + 1.
 */
module BchField {
  type Element = bv10

  function Add(x: Element, y: Element): Element { x ^ y }

  lemma AddSelf(x: Element)
    ensures Add(x, x) == 0 && Add(x, 0) == x && Add(0, x) == x
  {
  }

  lemma AddAssociates(x: Element, y: Element, z: Element)
    ensures Add(Add(x, y), z) == Add(x, Add(y, z))
  {
  }

  lemma AddCommutes(x: Element, y: Element)
    ensures Add(x, y) == Add(y, x)
  {
  }

  lemma AddSwap(a: Element, b: Element, c: Element, d: Element)
    ensures Add(Add(a, b), Add(c, d)) == Add(Add(a, c), Add(b, d))
  {
    hide Add;
    AddAssociates(a, b, Add(c, d));
    AddAssociates(b, c, d);
    AddCommutes(b, c);
    AddAssociates(c, b, d);
    AddAssociates(a, c, Add(b, d));
  }

  lemma AddZero(x: Element, y: Element)
    requires Add(x, y) == 0
    ensures x == y
  {
  }

  // ---------------------------------------------------------------- multiplying by alpha

  function Col(v: Element, mask: Element, k: Element): Element { if v & mask != 0 then k else 0 }

  function Up(v: Element): Element { (v & 0x1ff) << 1 }

  /** Multiplication by alpha. */
  function Alpha(v: Element): Element { Add(Up(v), Col(v, 0x200, 0x123)) }

  lemma UpLinear(x: Element, y: Element)
    ensures Up(Add(x, y)) == Add(Up(x), Up(y))
  {
  }

  lemma TopBit(x: Element, y: Element)
    ensures Add(x, y) & 0x200 != 0 <==> (x & 0x200 != 0) != (y & 0x200 != 0)
  {
  }

  lemma TopLinear(x: Element, y: Element)
    ensures Col(Add(x, y), 0x200, 0x123) == Add(Col(x, 0x200, 0x123), Col(y, 0x200, 0x123))
  {
    hide Add;
    TopBit(x, y);
    AddSelf(0x123);
    AddSelf(0);
  }

  lemma AlphaLinear(x: Element, y: Element)
    ensures Alpha(Add(x, y)) == Add(Alpha(x), Alpha(y))
  {
    hide Add, Up, Col;
    UpLinear(x, y);
    TopLinear(x, y);
    AddSwap(Up(x), Up(y), Col(x, 0x200, 0x123), Col(y, 0x200, 0x123));
  }

  lemma AlphaInjective(v: Element)
    requires Alpha(v) == 0
    ensures v == 0
  {
  }

  // ---------------------------------------------------------------- powers of alpha

  function Pow(n: nat, v: Element): Element {
    if n == 0 then v else Alpha(Pow(n - 1, v))
  }

  lemma {:induction false} PowAdd(a: nat, b: nat, v: Element)
    ensures Pow(a + b, v) == Pow(a, Pow(b, v))
  {
    hide Alpha;
    if a > 0 {
      PowAdd(a - 1, b, v);
    }
  }

  lemma PowCommutes(a: nat, b: nat, v: Element)
    ensures Pow(a, Pow(b, v)) == Pow(b, Pow(a, v))
  {
    hide Pow;
    PowAdd(a, b, v);
    PowAdd(b, a, v);
  }

  lemma {:induction false} PowLinear(n: nat, x: Element, y: Element)
    ensures Pow(n, Add(x, y)) == Add(Pow(n, x), Pow(n, y))
  {
    hide Alpha, Add;
    if n > 0 {
      PowLinear(n - 1, x, y);
      AlphaLinear(Pow(n - 1, x), Pow(n - 1, y));
    }
  }

  lemma PowZero(n: nat)
    ensures Pow(n, 0) == 0
  {
    hide Pow, Add;
    PowLinear(n, 0, 0);
    AddSelf(0);
    AddSelf(Pow(n, 0));
  }

  lemma {:induction false} PowInjective(n: nat, v: Element)
    requires Pow(n, v) == 0
    ensures v == 0
  {
    hide Alpha;
    if n > 0 {
      AlphaInjective(Pow(n - 1, v));
      PowInjective(n - 1, v);
    }
  }

  lemma PowEqual(n: nat, x: Element, y: Element)
    requires Pow(n, x) == Pow(n, y)
    ensures x == y
  {
    hide Pow, Add;
    PowLinear(n, x, y);
    AddSelf(Pow(n, x));
    PowInjective(n, Add(x, y));
    AddZero(x, y);
  }

  // ---------------------------------------------------------------- multiplication

  function Mul(e: Element, v: Element): Element {
    var e1 := Alpha(e);
    var e2 := Alpha(e1);
    var e3 := Alpha(e2);
    var e4 := Alpha(e3);
    var e5 := Alpha(e4);
    var e6 := Alpha(e5);
    var e7 := Alpha(e6);
    var e8 := Alpha(e7);
    var e9 := Alpha(e8);
    Add(Add(Add(Add(Add(Add(Add(Add(Add(
      Col(v, 0x001, e), Col(v, 0x002, e1)), Col(v, 0x004, e2)), Col(v, 0x008, e3)), Col(v, 0x010, e4)),
      Col(v, 0x020, e5)), Col(v, 0x040, e6)), Col(v, 0x080, e7)), Col(v, 0x100, e8)), Col(v, 0x200, e9))
  }

  lemma AlphaCol(v: Element, mask: Element, k: Element)
    ensures Alpha(Col(v, mask, k)) == Col(v, mask, Alpha(k))
  {
    assert Alpha(0) == 0;
  }

  lemma AlphaTerm(p: Element, v: Element, mask: Element, k: Element)
    ensures Alpha(Add(p, Col(v, mask, k))) == Add(Alpha(p), Col(v, mask, Alpha(k)))
  {
    hide Alpha, Add, Col;
    AlphaLinear(p, Col(v, mask, k));
    AlphaCol(v, mask, k);
  }

  lemma MulAlpha(e: Element, v: Element)
    ensures Mul(Alpha(e), v) == Alpha(Mul(e, v))
  {
    hide Alpha, Add, Col;
    var e1 := Alpha(e);
    var e2 := Alpha(e1);
    var e3 := Alpha(e2);
    var e4 := Alpha(e3);
    var e5 := Alpha(e4);
    var e6 := Alpha(e5);
    var e7 := Alpha(e6);
    var e8 := Alpha(e7);
    var e9 := Alpha(e8);
    AlphaCol(v, 0x001, e);
    var p0 := Col(v, 0x001, e);
    AlphaTerm(p0, v, 0x002, e1);
    var p1 := Add(p0, Col(v, 0x002, e1));
    AlphaTerm(p1, v, 0x004, e2);
    var p2 := Add(p1, Col(v, 0x004, e2));
    AlphaTerm(p2, v, 0x008, e3);
    var p3 := Add(p2, Col(v, 0x008, e3));
    AlphaTerm(p3, v, 0x010, e4);
    var p4 := Add(p3, Col(v, 0x010, e4));
    AlphaTerm(p4, v, 0x020, e5);
    var p5 := Add(p4, Col(v, 0x020, e5));
    AlphaTerm(p5, v, 0x040, e6);
    var p6 := Add(p5, Col(v, 0x040, e6));
    AlphaTerm(p6, v, 0x080, e7);
    var p7 := Add(p6, Col(v, 0x080, e7));
    AlphaTerm(p7, v, 0x100, e8);
    var p8 := Add(p7, Col(v, 0x100, e8));
    AlphaTerm(p8, v, 0x200, e9);
  }

  lemma UnitCols(v: Element)
    ensures Col(v, 0x001, 0x001) == v & 0x001 && Col(v, 0x002, 0x002) == v & 0x002
    ensures Col(v, 0x004, 0x004) == v & 0x004 && Col(v, 0x008, 0x008) == v & 0x008
    ensures Col(v, 0x010, 0x010) == v & 0x010 && Col(v, 0x020, 0x020) == v & 0x020
    ensures Col(v, 0x040, 0x040) == v & 0x040 && Col(v, 0x080, 0x080) == v & 0x080
    ensures Col(v, 0x100, 0x100) == v & 0x100 && Col(v, 0x200, 0x200) == v & 0x200
  {
  }

  lemma AllBits(v: Element)
    ensures v ==
      Add(Add(Add(Add(Add(Add(Add(Add(Add(
        v & 0x001, v & 0x002), v & 0x004), v & 0x008), v & 0x010), v & 0x020), v & 0x040), v & 0x080), v & 0x100),
        v & 0x200)
  {
  }

  lemma LowPowers()
    ensures Alpha(0x001) == 0x002 && Alpha(0x002) == 0x004 && Alpha(0x004) == 0x008
    ensures Alpha(0x008) == 0x010 && Alpha(0x010) == 0x020 && Alpha(0x020) == 0x040
    ensures Alpha(0x040) == 0x080 && Alpha(0x080) == 0x100 && Alpha(0x100) == 0x200
  {
  }

  lemma MulOne(v: Element)
    ensures Mul(1, v) == v
  {
    hide Add, Col, Alpha;
    LowPowers();
    UnitCols(v);
    AllBits(v);
  }

  /** A power of alpha acts as multiplication by the element it makes of one. */
  lemma {:induction false} PowIsMul(n: nat, v: Element)
    ensures Pow(n, v) == Mul(Pow(n, 1), v)
  {
    hide Mul, Alpha;
    if n == 0 {
      MulOne(v);
    } else {
      PowIsMul(n - 1, v);
      MulAlpha(Pow(n - 1, 1), v);
    }
  }

  lemma PowSum(a: nat, b: nat, x: Element, y: Element, z: Element)
    requires Pow(a, 1) == x && Pow(b, 1) == y && Mul(x, y) == z
    ensures Pow(a + b, 1) == z
  {
    hide Pow, Mul;
    PowAdd(a, b, 1);
    PowIsMul(a, y);
  }

  lemma FirstPower()
    ensures Pow(1, 1) == 0x002
  {
    assert Pow(0, 1) == 1;
  }

  lemma Products1()
    ensures Mul(0x002, 0x002) == 0x004
    ensures Mul(0x004, 0x002) == 0x008
    ensures Mul(0x008, 0x008) == 0x040
    ensures Mul(0x040, 0x040) == 0x1af
    ensures Mul(0x1af, 0x1af) == 0x3f0
    ensures Mul(0x3f0, 0x002) == 0x2c3
  {
  }

  lemma Products2()
    ensures Mul(0x2c3, 0x002) == 0x0a5
    ensures Mul(0x2c3, 0x040) == 0x02c
    ensures Mul(0x02c, 0x004) == 0x0b0
    ensures Mul(0x02c, 0x02c) == 0x173
    ensures Mul(0x173, 0x02c) == 0x36a
    ensures Mul(0x36a, 0x040) == 0x0eb
  {
  }

  lemma Products3()
    ensures Mul(0x36a, 0x36a) == 0x096
    ensures Mul(0x096, 0x36a) == 0x19e
    ensures Mul(0x19e, 0x173) == 0x036
    ensures Mul(0x036, 0x036) == 0x037
    ensures Mul(0x037, 0x036) == 0x001
  {
  }

  lemma AlphaPowers()
    ensures Pow(24, 1) == 0x3f0 && Pow(25, 1) == 0x2c3 && Pow(26, 1) == 0x0a5 && Pow(99, 1) == 0x0eb
    ensures Pow(33, 1) == 0x0b0 && Pow(93, 1) == 0x36a && Pow(341, 1) == 0x036 && Pow(1023, 1) == 0x001
  {
    hide Pow, Mul;
    FirstPower();
    Products1();
    Products2();
    Products3();
    PowSum(1, 1, 0x002, 0x002, 0x004);
    PowSum(2, 1, 0x004, 0x002, 0x008);
    PowSum(3, 3, 0x008, 0x008, 0x040);
    PowSum(6, 6, 0x040, 0x040, 0x1af);
    PowSum(12, 12, 0x1af, 0x1af, 0x3f0);
    PowSum(24, 1, 0x3f0, 0x002, 0x2c3);
    PowSum(25, 1, 0x2c3, 0x002, 0x0a5);
    PowSum(25, 6, 0x2c3, 0x040, 0x02c);
    PowSum(31, 2, 0x02c, 0x004, 0x0b0);
    PowSum(31, 31, 0x02c, 0x02c, 0x173);
    PowSum(62, 31, 0x173, 0x02c, 0x36a);
    PowSum(93, 6, 0x36a, 0x040, 0x0eb);
    PowSum(93, 93, 0x36a, 0x36a, 0x096);
    PowSum(186, 93, 0x096, 0x36a, 0x19e);
    PowSum(279, 62, 0x19e, 0x173, 0x036);
    PowSum(341, 341, 0x036, 0x036, 0x037);
    PowSum(682, 341, 0x037, 0x036, 0x001);
  }

  // ---------------------------------------------------------------- the order of alpha

  lemma Fixed33(v: Element)
    requires Mul(0x0b0, v) == v
    ensures v == 0
  {
  }

  lemma Fixed93(v: Element)
    requires Mul(0x36a, v) == v
    ensures v == 0
  {
  }

  lemma Fixed341(v: Element)
    requires Mul(0x036, v) == v
    ensures v == 0
  {
  }

  ghost predicate Fixes(n: nat, v: Element) {
    Pow(n, v) == v
  }

  lemma {:induction false} FixesMultiple(n: nat, k: nat, v: Element)
    requires Fixes(n, v)
    ensures Fixes(k * n, v)
  {
    hide Pow;
    if k == 0 {
      NoPower(v);
    } else {
      FixesMultiple(n, k - 1, v);
      PowAdd(n, (k - 1) * n, v);
      assert n + (k - 1) * n == k * n;
    }
  }

  lemma NoPower(v: Element)
    ensures Pow(0, v) == v
  {
  }

  lemma FixesDifference(m: nat, n: nat, v: Element)
    requires m <= n && Fixes(m, v) && Fixes(n, v)
    ensures Fixes(n - m, v)
  {
    hide Pow;
    PowAdd(n - m, m, v);
  }

  predicate NoDivisor(prime: nat, n: nat) {
    if n < 2 then true else prime % n != 0 && NoDivisor(prime, n - 1)
  }

  lemma {:induction false} NotDivided(prime: nat, n: nat, r: nat)
    requires NoDivisor(prime, n) && 2 <= r <= n
    ensures prime % r != 0
  {
    if r < n {
      NotDivided(prime, n - 1, r);
    }
  }

  /** Euclid's argument for a prime: when `r` and `prime` steps fix a value, one step does. */
  lemma {:induction false} FixesOne(step: nat, prime: nat, r: nat, v: Element)
    requires 0 < r < prime && NoDivisor(prime, prime - 1)
    requires Fixes(step * r, v) && Fixes(step * prime, v)
    ensures Fixes(step, v)
    decreases r
  {
    hide Fixes, NoDivisor;
    if r == 1 {
      assert step * r == step;
    } else {
      var k, rest := prime / r, prime % r;
      NotDivided(prime, prime - 1, r);
      FixesMultiple(step * r, k, v);
      Split(step, prime, r, k, rest);
      FixesDifference(k * (step * r), step * prime, v);
      FixesOne(step, prime, rest, v);
    }
  }

  lemma Split(step: nat, total: nat, r: nat, k: nat, rest: nat)
    requires total == k * r + rest
    ensures step * total == k * (step * r) + step * rest
  {
  }

  lemma Primes()
    ensures NoDivisor(3, 2) && NoDivisor(11, 10) && NoDivisor(31, 30)
  {
    assert NoDivisor(11, 4);
    assert NoDivisor(11, 7);
    assert NoDivisor(31, 4);
    assert NoDivisor(31, 7);
    assert NoDivisor(31, 10);
    assert NoDivisor(31, 13);
    assert NoDivisor(31, 16);
    assert NoDivisor(31, 19);
    assert NoDivisor(31, 22);
    assert NoDivisor(31, 25);
    assert NoDivisor(31, 28);
  }

  lemma Reduce(n: nat, step: nat, prime: nat, v: Element)
    requires 0 < prime && step * prime == 1023 && n % prime != 0 && NoDivisor(prime, prime - 1)
    requires Fixes(n, v) && Fixes(1023, v)
    ensures Fixes(step, v)
  {
    hide Fixes, NoDivisor;
    var k, r := n / prime, n % prime;
    FixesMultiple(n, step, v);
    FixesMultiple(1023, k, v);
    Split(step, n, prime, k, r);
    FixesDifference(k * (step * prime), step * n, v);
    FixesOne(step, prime, r, v);
  }

  lemma StepFixes(n: nat, e: Element, v: Element)
    requires Pow(n, 1) == e
    ensures Fixes(n, v) <==> Mul(e, v) == v
  {
    hide Pow, Mul;
    PowIsMul(n, v);
  }

  /** Multiplying by alpha comes round after 1023 steps and not before. */
  lemma AlphaPrimitive(n: nat, v: Element)
    requires 0 < n < 1023 && Fixes(n, v)
    ensures v == 0
  {
    hide Pow, Fixes, Mul, NoDivisor;
    AlphaPowers();
    MulOne(v);
    StepFixes(1023, 1, v);
    Primes();
    if n % 3 != 0 {
      Reduce(n, 341, 3, v);
      StepFixes(341, 0x036, v);
      Fixed341(v);
    } else if n % 11 != 0 {
      Reduce(n, 93, 11, v);
      StepFixes(93, 0x36a, v);
      Fixed93(v);
    } else {
      Reduce(n, 33, 31, v);
      StepFixes(33, 0x0b0, v);
      Fixed33(v);
    }
  }

  // ---------------------------------------------------------------- three terms

  lemma PairIsZero(p: nat, y: Element)
    requires 0 < p < 1023 && Add(Pow(p, y), y) == 0
    ensures y == 0
  {
    hide Pow, Add;
    AddZero(Pow(p, y), y);
    assert Fixes(p, y);
    AlphaPrimitive(p, y);
  }

  lemma TwoPlaces(p: nat, q: nat, z: Element)
    requires 0 < q < p < 1023 && Pow(p, z) == Pow(q, z)
    ensures z == 0
  {
    hide Pow;
    PowAdd(q, p - q, z);
    PowEqual(q, Pow(p - q, z), z);
    assert Fixes(p - q, z);
    AlphaPrimitive(p - q, z);
  }

  lemma ThreeSums(y1: Element, y2: Element, y3: Element, a1: Element, b1: Element, a2: Element, b2: Element)
    requires Add(Add(y1, y2), y3) == 0 && Add(Add(a1, b1), y3) == 0 && Add(Add(a2, b2), y3) == 0
    ensures Add(a1, y1) == Add(b1, y2) && Add(a2, a1) == Add(b2, b1)
  {
  }

  /**
   * The determinant behind the code: three terms at distinct places, whose sums vanish when
   * weighted with no power, the first and the second power of alpha's place, are all zero.
   */
  lemma ThreeTerms(p: nat, q: nat, y1: Element, y2: Element, y3: Element)
    requires 0 < q < p < 1023
    requires Add(Add(y1, y2), y3) == 0
    requires Add(Add(Pow(p, y1), Pow(q, y2)), y3) == 0
    requires Add(Add(Pow(p, Pow(p, y1)), Pow(q, Pow(q, y2))), y3) == 0
    ensures y1 == 0 && y2 == 0 && y3 == 0
  {
    hide Pow, Add;
    var a1, b1 := Pow(p, y1), Pow(q, y2);
    ThreeSums(y1, y2, y3, a1, b1, Pow(p, a1), Pow(q, b1));
    PowLinear(p, a1, y1);
    PowLinear(q, b1, y2);
    TwoPlaces(p, q, Add(a1, y1));
    PairIsZero(p, y1);
    PairIsZero(q, y2);
    AddSelf(0);
    AddSelf(y3);
  }
}
