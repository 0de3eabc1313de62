/**
 * Classes of field elements: the nonzero elements fall into 33 classes by their logarithm modulo
 * 33, and the 31 nonzero symbols are one of them. Terms at four places within 89 that cancel out
 * at three consecutive powers would balance the classes of the differences between the places,
 * and the search shows that no places do.
 */
module BchClasses {
  import opened BchField
  import opened BchSearch
  import opened Bech32
  import opened Bech32Errors

  // ---------------------------------------------------------------- classes

  /** A power of alpha whose exponent is `n` modulo 33. */
  ghost predicate InClass(v: Element, n: int) {
    exists k: nat :: v == Pow(k, 1) && (k - n) % 33 == 0
  }

  lemma ClassOf(k: nat, n: int)
    requires (k - n) % 33 == 0
    ensures InClass(Pow(k, 1), n)
  {
  }

  lemma ClassSame(v: Element, m: int, n: int)
    requires InClass(v, m) && (m - n) % 33 == 0
    ensures InClass(v, n)
  {
    hide Pow;
    var k: nat :| v == Pow(k, 1) && (k - m) % 33 == 0;
    ClassOf(k, n);
  }

  lemma ClassPow(v: Element, n: int, m: nat)
    requires InClass(v, n)
    ensures InClass(Pow(m, v), n + m)
  {
    hide Pow;
    var k: nat :| v == Pow(k, 1) && (k - n) % 33 == 0;
    PowAdd(m, k, 1);
    ClassOf(m + k, n + m);
  }

  lemma FullTurn(v: Element)
    ensures Fixes(1023, v)
  {
    hide Pow, Mul, Fixes;
    AlphaPowers();
    MulOne(v);
    StepFixes(1023, 1, v);
  }

  lemma FixesRest(n: nat, v: Element)
    requires Fixes(n, v) && v != 0
    ensures n % 33 == 0
  {
    hide Fixes;
    var q, r := n / 1023, n % 1023;
    FullTurn(v);
    FixesMultiple(1023, q, v);
    FixesDifference(q * 1023, n, v);
    if r > 0 {
      AlphaPrimitive(r, v);
    }
    assert n == 33 * (31 * q);
  }

  lemma SamePower(j: nat, k: nat)
    requires j <= k && Pow(j, 1) == Pow(k, 1)
    ensures (k - j) % 33 == 0
  {
    hide Pow;
    var v := Pow(j, 1);
    if v == 0 {
      PowInjective(j, 1);
    }
    PowAdd(k - j, j, 1);
    FixesRest(k - j, v);
  }

  lemma ClassUnique(v: Element, m: int, n: int)
    requires InClass(v, m) && InClass(v, n)
    ensures (m - n) % 33 == 0
  {
    hide Pow;
    var j: nat :| v == Pow(j, 1) && (j - m) % 33 == 0;
    var k: nat :| v == Pow(k, 1) && (k - n) % 33 == 0;
    if j <= k {
      SamePower(j, k);
    } else {
      SamePower(k, j);
    }
  }

  /** How often a symbol is doubled until it is one. */
  function Doublings(x: Symbol): nat {
    if x == 2 then 30 else if x == 3 then 17 else if x == 4 then 29 else if x == 5 then 3 else if x == 6 then 16
    else if x == 7 then 9 else if x == 8 then 28 else if x == 9 then 26 else if x == 10 then 2
    else if x == 11 then 5 else if x == 12 then 15 else if x == 13 then 24 else if x == 14 then 8
    else if x == 15 then 20 else if x == 16 then 27 else if x == 17 then 6 else if x == 18 then 25
    else if x == 19 then 21 else if x == 20 then 1 else if x == 21 then 18 else if x == 22 then 4
    else if x == 23 then 10 else if x == 24 then 14 else if x == 25 then 13 else if x == 26 then 23
    else if x == 27 then 12 else if x == 28 then 7 else if x == 29 then 22 else if x == 30 then 19
    else if x == 31 then 11 else 0
  }

  lemma DoublingsDrop(x: Symbol)
    requires x != 0 && x != 1
    ensures Twice(x) != 0 && Doublings(Twice(x)) < Doublings(x)
  {
  }

  /** The nonzero symbols are the class of one. */
  lemma {:induction false} SymbolClass(x: Symbol)
    requires x != 0
    ensures InClass(Embed(x), 0)
    decreases Doublings(x)
  {
    hide Pow, Embed, Twice, InClass, Doublings;
    if x == 1 {
      TwiceOne();
      NoPower(1);
      ClassOf(0, 0);
    } else {
      DoublingsDrop(x);
      SymbolClass(Twice(x));
      ClassPow(Embed(Twice(x)), 0, 99);
      Half(x);
      ClassSame(Embed(x), 99, 0);
    }
  }

  // ---------------------------------------------------------------- places

  /** A small number as a place. */
  function At(n: nat): Place {
    if n == 0 then 0 else At(n - 1) + 1
  }

  lemma NextPlace(x: Place)
    requires x < 255
    ensures (x + 1) as int == x as int + 1
  {
  }

  lemma PlaceOrder(x: Place, y: Place)
    ensures x < y <==> x as int < y as int
  {
  }

  lemma {:induction false} AtIs(n: nat)
    requires n < 256
    ensures At(n) as int == n
  {
    if n > 0 {
      AtIs(n - 1);
      PlaceOrder(At(n - 1), 255);
      NextPlace(At(n - 1));
    }
  }

  lemma AtNumber(x: Place)
    ensures At(x as int) == x
  {
    AtIs(x as int);
    PlaceOrder(At(x as int), x);
    PlaceOrder(x, At(x as int));
  }

  lemma {:induction false} AtSum(m: nat, n: nat)
    ensures At(m + n) == Later(At(m), At(n))
  {
    hide Later;
    LaterSteps(At(m), if n > 0 then At(n - 1) else 0);
    if n > 0 {
      AtSum(m, n - 1);
    }
  }

  lemma LaterSteps(x: Place, n: Place)
    ensures Later(x, 0) == x && Later(x, n + 1) == Later(x, n) + 1
  {
    assert x + (n + 1) == (x + n) + 1;
  }

  lemma BetweenLater(x: Place, n: Place)
    ensures Between(x, Later(n, x)) == n
  {
    assert (n + x) - x == n;
  }

  lemma AtOrder(m: nat, n: nat)
    requires m < n < 256
    ensures At(m) < At(n)
  {
    hide At;
    AtIs(m);
    AtIs(n);
    PlaceOrder(At(m), At(n));
  }

  // ---------------------------------------------------------------- classes of differences

  /** The powers of alpha up to 88. */
  function Power(x: Place): Element {
    if x & 64 != 0 then
      if x & 32 != 0 then
        0x0ed
      else
        if x & 16 != 0 then
          if x & 8 != 0 then
            0x0ed
          else
            if x & 4 != 0 then
              if x & 2 != 0 then (if x & 1 != 0 then 0x2e7 else 0x3e2) else (if x & 1 != 0 then 0x1f1 else 0x269)
            else
              if x & 2 != 0 then (if x & 1 != 0 then 0x3a5 else 0x343) else (if x & 1 != 0 then 0x330 else 0x198)
        else
          if x & 8 != 0 then
            if x & 4 != 0 then
              if x & 2 != 0 then (if x & 1 != 0 then 0x0cc else 0x066) else (if x & 1 != 0 then 0x033 else 0x288)
            else
              if x & 2 != 0 then (if x & 1 != 0 then 0x144 else 0x0a2) else (if x & 1 != 0 then 0x051 else 0x2b9)
          else
            if x & 4 != 0 then
              if x & 2 != 0 then (if x & 1 != 0 then 0x3cd else 0x377) else (if x & 1 != 0 then 0x32a else 0x195)
            else
              if x & 2 != 0 then (if x & 1 != 0 then 0x25b else 0x3bc) else (if x & 1 != 0 then 0x1de else 0x0ef)
    else
      if x & 32 != 0 then
        if x & 16 != 0 then
          if x & 8 != 0 then
            if x & 4 != 0 then
              if x & 2 != 0 then (if x & 1 != 0 then 0x2e6 else 0x173) else (if x & 1 != 0 then 0x228 else 0x114)
            else
              if x & 2 != 0 then (if x & 1 != 0 then 0x08a else 0x045) else (if x & 1 != 0 then 0x2b3 else 0x3c8)
          else
            if x & 4 != 0 then
              if x & 2 != 0 then (if x & 1 != 0 then 0x1e4 else 0x0f2) else (if x & 1 != 0 then 0x079 else 0x2ad)
            else
              if x & 2 != 0 then (if x & 1 != 0 then 0x3c7 else 0x372) else (if x & 1 != 0 then 0x1b9 else 0x24d)
        else
          if x & 8 != 0 then
            if x & 4 != 0 then
              if x & 2 != 0 then (if x & 1 != 0 then 0x3b7 else 0x34a) else (if x & 1 != 0 then 0x1a5 else 0x243)
            else
              if x & 2 != 0 then (if x & 1 != 0 then 0x3b0 else 0x1d8) else (if x & 1 != 0 then 0x0ec else 0x076)
          else
            if x & 4 != 0 then
              if x & 2 != 0 then (if x & 1 != 0 then 0x03b else 0x28c) else (if x & 1 != 0 then 0x146 else 0x0a3)
            else
              if x & 2 != 0 then (if x & 1 != 0 then 0x2c0 else 0x160) else (if x & 1 != 0 then 0x0b0 else 0x058)
      else
        if x & 16 != 0 then
          if x & 8 != 0 then
            if x & 4 != 0 then
              if x & 2 != 0 then (if x & 1 != 0 then 0x02c else 0x016) else (if x & 1 != 0 then 0x00b else 0x294)
            else
              if x & 2 != 0 then (if x & 1 != 0 then 0x14a else 0x0a5) else (if x & 1 != 0 then 0x2c3 else 0x3f0)
          else
            if x & 4 != 0 then
              if x & 2 != 0 then (if x & 1 != 0 then 0x1f8 else 0x0fc) else (if x & 1 != 0 then 0x07e else 0x03f)
            else
              if x & 2 != 0 then (if x & 1 != 0 then 0x28e else 0x147) else (if x & 1 != 0 then 0x232 else 0x119)
        else
          if x & 8 != 0 then
            if x & 4 != 0 then
              if x & 2 != 0 then (if x & 1 != 0 then 0x21d else 0x39f) else (if x & 1 != 0 then 0x35e else 0x1af)
            else
              if x & 2 != 0 then (if x & 1 != 0 then 0x246 else 0x123) else (if x & 1 != 0 then 0x200 else 0x100)
          else
            if x & 4 != 0 then
              if x & 2 != 0 then (if x & 1 != 0 then 0x080 else 0x040) else (if x & 1 != 0 then 0x020 else 0x010)
            else
              if x & 2 != 0 then (if x & 1 != 0 then 0x008 else 0x004) else (if x & 1 != 0 then 0x002 else 0x001)
  }

  /** The logarithm of alpha^x + 1 modulo 33. */
  function Part(x: Place): Place {
    if x & 64 != 0 then
      if x & 32 != 0 then
        8
      else
        if x & 16 != 0 then
          if x & 8 != 0 then
            8
          else
            if x & 4 != 0 then
              if x & 2 != 0 then (if x & 1 != 0 then 30 else 16) else (if x & 1 != 0 then 30 else 31)
            else
              if x & 2 != 0 then (if x & 1 != 0 then 20 else 11) else (if x & 1 != 0 then 14 else 9)
        else
          if x & 8 != 0 then
            if x & 4 != 0 then
              if x & 2 != 0 then (if x & 1 != 0 then 25 else 5) else (if x & 1 != 0 then 20 else 27)
            else
              if x & 2 != 0 then (if x & 1 != 0 then 20 else 3) else (if x & 1 != 0 then 15 else 16)
          else
            if x & 4 != 0 then (if x & 2 != 0 then (if x & 1 != 0 then 31 else 8) else (if x & 1 != 0 then 5 else 10))
            else (if x & 2 != 0 then (if x & 1 != 0 then 16 else 0) else (if x & 1 != 0 then 28 else 22))
    else
      if x & 32 != 0 then
        if x & 16 != 0 then
          if x & 8 != 0 then
            if x & 4 != 0 then
              if x & 2 != 0 then (if x & 1 != 0 then 21 else 31) else (if x & 1 != 0 then 11 else 18)
            else
              if x & 2 != 0 then (if x & 1 != 0 then 9 else 24) else (if x & 1 != 0 then 4 else 7)
          else
            if x & 4 != 0 then (if x & 2 != 0 then (if x & 1 != 0 then 25 else 29) else (if x & 1 != 0 then 3 else 5))
            else (if x & 2 != 0 then (if x & 1 != 0 then 28 else 12) else (if x & 1 != 0 then 25 else 6))
        else
          if x & 8 != 0 then
            if x & 4 != 0 then
              if x & 2 != 0 then (if x & 1 != 0 then 25 else 28) else (if x & 1 != 0 then 31 else 4)
            else
              if x & 2 != 0 then (if x & 1 != 0 then 8 else 32) else (if x & 1 != 0 then 22 else 21)
          else
            if x & 4 != 0 then
              if x & 2 != 0 then (if x & 1 != 0 then 19 else 30) else (if x & 1 != 0 then 18 else 8)
            else
              if x & 2 != 0 then (if x & 1 != 0 then 4 else 5) else (if x & 1 != 0 then 0 else 11)
      else
        if x & 16 != 0 then
          if x & 8 != 0 then
            if x & 4 != 0 then
              if x & 2 != 0 then (if x & 1 != 0 then 32 else 9) else (if x & 1 != 0 then 12 else 20)
            else
              if x & 2 != 0 then (if x & 1 != 0 then 31 else 19) else (if x & 1 != 0 then 6 else 3)
          else
            if x & 4 != 0 then
              if x & 2 != 0 then (if x & 1 != 0 then 14 else 2) else (if x & 1 != 0 then 16 else 27)
            else
              if x & 2 != 0 then (if x & 1 != 0 then 15 else 4) else (if x & 1 != 0 then 19 else 22)
        else
          if x & 8 != 0 then
            if x & 4 != 0 then
              if x & 2 != 0 then (if x & 1 != 0 then 21 else 10) else (if x & 1 != 0 then 26 else 18)
            else
              if x & 2 != 0 then (if x & 1 != 0 then 1 else 30) else (if x & 1 != 0 then 2 else 11)
          else
            if x & 4 != 0 then (if x & 2 != 0 then (if x & 1 != 0 then 5 else 9) else (if x & 1 != 0 then 15 else 22))
            else (if x & 2 != 0 then (if x & 1 != 0 then 21 else 11) else 22)
  }

  /** The symbol that alpha^x + 1 is besides alpha^Part(x). */
  function Factor(x: Place): Symbol {
    if x & 64 != 0 then
      if x & 32 != 0 then
        19
      else
        if x & 16 != 0 then
          if x & 8 != 0 then
            19
          else
            if x & 4 != 0 then
              if x & 2 != 0 then (if x & 1 != 0 then 19 else 13) else (if x & 1 != 0 then 24 else 26)
            else
              if x & 2 != 0 then (if x & 1 != 0 then 13 else 27) else (if x & 1 != 0 then 28 else 9)
        else
          if x & 8 != 0 then
            if x & 4 != 0 then (if x & 2 != 0 then (if x & 1 != 0 then 13 else 11) else (if x & 1 != 0 then 8 else 2))
            else (if x & 2 != 0 then (if x & 1 != 0 then 3 else 19) else (if x & 1 != 0 then 18 else 29))
          else
            if x & 4 != 0 then (if x & 2 != 0 then (if x & 1 != 0 then 25 else 7) else (if x & 1 != 0 then 26 else 3))
            else (if x & 2 != 0 then 30 else (if x & 1 != 0 then 12 else 21))
    else
      if x & 32 != 0 then
        if x & 16 != 0 then
          if x & 8 != 0 then
            if x & 4 != 0 then (if x & 2 != 0 then 31 else 11)
            else (if x & 2 != 0 then (if x & 1 != 0 then 25 else 30) else (if x & 1 != 0 then 10 else 26))
          else
            if x & 4 != 0 then
              if x & 2 != 0 then (if x & 1 != 0 then 26 else 25) else (if x & 1 != 0 then 3 else 18)
            else
              if x & 2 != 0 then (if x & 1 != 0 then 29 else 3) else (if x & 1 != 0 then 3 else 7)
        else
          if x & 8 != 0 then
            if x & 4 != 0 then (if x & 2 != 0 then (if x & 1 != 0 then 15 else 13) else (if x & 1 != 0 then 3 else 9))
            else (if x & 2 != 0 then (if x & 1 != 0 then 27 else 20) else (if x & 1 != 0 then 31 else 21))
          else
            if x & 4 != 0 then
              if x & 2 != 0 then (if x & 1 != 0 then 26 else 15) else (if x & 1 != 0 then 1 else 31)
            else
              if x & 2 != 0 then (if x & 1 != 0 then 15 else 13) else (if x & 1 != 0 then 18 else 7)
      else
        if x & 16 != 0 then
          if x & 8 != 0 then
            if x & 4 != 0 then
              if x & 2 != 0 then (if x & 1 != 0 then 9 else 21) else (if x & 1 != 0 then 18 else 20)
            else
              if x & 2 != 0 then (if x & 1 != 0 then 16 else 10) else (if x & 1 != 0 then 13 else 15)
          else
            if x & 4 != 0 then
              if x & 2 != 0 then (if x & 1 != 0 then 27 else 25) else (if x & 1 != 0 then 6 else 24)
            else
              if x & 2 != 0 then (if x & 1 != 0 then 23 else 19) else (if x & 1 != 0 then 3 else 18)
        else
          if x & 8 != 0 then
            if x & 4 != 0 then
              if x & 2 != 0 then (if x & 1 != 0 then 24 else 6) else (if x & 1 != 0 then 17 else 12)
            else
              if x & 2 != 0 then (if x & 1 != 0 then 29 else 27) else (if x & 1 != 0 then 9 else 8)
          else
            if x & 4 != 0 then
              if x & 2 != 0 then (if x & 1 != 0 then 14 else 26) else (if x & 1 != 0 then 17 else 30)
            else
              if x & 2 != 0 then (if x & 1 != 0 then 20 else 18) else 10
  }

  lemma PowerStep(x: Place)
    requires x < 88
    ensures Power(x + 1) == Alpha(Power(x))
  {
  }

  lemma PowerNone()
    ensures Power(0) == 1
  {
  }

  lemma {:induction false} PowerIs(d: nat)
    requires d <= 88
    ensures Pow(d, 1) == Power(At(d))
  {
    hide Alpha, Power;
    if d == 0 {
      PowerNone();
    } else {
      PowerIs(d - 1);
      AtOrder(d - 1, 88);
      Place88();
      PowerStep(At(d - 1));
    }
  }

  lemma Place88()
    ensures At(88) == 88 && At(89) == 89
  {
    AtNumber(88);
    AtNumber(89);
  }

  lemma LowProduct(x: Place)
    requires 0 < x < 45
    ensures Mul(Power(Part(x)), Embed(Factor(x))) == Add(Power(x), 1)
  {
  }

  lemma HighProduct(x: Place)
    requires 45 <= x < 89
    ensures Mul(Power(Part(x)), Embed(Factor(x))) == Add(Power(x), 1)
  {
  }

  lemma Parts(x: Place)
    requires 0 < x < 89
    ensures Part(x) < 33 && Factor(x) != 0 && Rank(x) < 33
  {
  }

  lemma Ranks(x: Place)
    requires 0 < x < 89
    ensures (4 * (Part(x) as int) + 15 * (x as int) - Rank(x) as int) % 33 == 0
  {
  }

  /** The class of alpha^d + 1. */
  function Log(d: nat): int {
    Part(At(d)) as int
  }

  lemma DifferenceClass(d: nat)
    requires 0 < d < 89
    ensures InClass(Add(Pow(d, 1), 1), Log(d))
  {
    hide Pow, Mul, Power, Embed, InClass, Add, Part, Factor, At;
    var x := At(d);
    var s, n := Factor(x), Part(x) as int;
    Place88();
    AtOrder(0, d);
    AtOrder(d, 89);
    AtNone();
    Parts(x);
    if x < 45 {
      LowProduct(x);
    } else {
      HighProduct(x);
    }
    PlaceOrder(Part(x), 33);
    AtNumber(Part(x));
    PowerIs(d);
    PowerIs(n);
    PowIsMul(n, Embed(s));
    SymbolClass(s);
    ClassPow(Embed(s), 0, n);
  }

  lemma AtNone()
    ensures At(0) == 0
  {
  }

  // ---------------------------------------------------------------- four terms that cancel out

  /** A term times the difference of two places. */
  function Diff(m: nat, n: nat, v: Element): Element {
    Add(Pow(m, v), Pow(n, v))
  }

  lemma DiffShift(m: nat, n: nat, v: Element)
    requires m <= n
    ensures Diff(m, n, v) == Diff(n, m, v) == Pow(m, Add(Pow(n - m, v), v))
  {
    hide Pow, Add;
    PowAdd(m, n - m, v);
    PowLinear(m, Pow(n - m, v), v);
    AddCommutes(Pow(m, v), Pow(n, v));
  }

  lemma ClassDiff(m: nat, n: nat, v: Element, k: int)
    requires m < n && n - m < 89 && InClass(v, k)
    ensures InClass(Diff(m, n, v), k + m + Log(n - m)) && Diff(n, m, v) == Diff(m, n, v)
  {
    hide Pow, Add, Log, InClass, Diff;
    var d := n - m;
    var j := Exponent(v, k);
    PowLinear(j, Pow(d, 1), 1);
    PowCommutes(j, d, 1);
    DifferenceClass(d);
    ClassPow(Add(Pow(d, 1), 1), Log(d), j);
    ClassPow(Add(Pow(d, v), v), Log(d) + j, m);
    DiffShift(m, n, v);
    ClassSame(Diff(m, n, v), Log(d) + j + m, k + m + Log(d));
  }

  lemma Exponent(v: Element, n: int) returns (k: nat)
    requires InClass(v, n)
    ensures v == Pow(k, 1) && (k - n) % 33 == 0
  {
    hide Pow;
    k :| v == Pow(k, 1) && (k - n) % 33 == 0;
  }

  function Sum4(a: Element, b: Element, c: Element, d: Element): Element {
    Add(Add(a, b), Add(c, d))
  }

  lemma Sum4Swap(a: Element, b: Element, c: Element, d: Element, e: Element, f: Element, g: Element, h: Element)
    ensures Sum4(Add(a, e), Add(b, f), Add(c, g), Add(d, h)) == Add(Sum4(a, b, c, d), Sum4(e, f, g, h))
  {
    hide Add;
    AddSwap(a, e, b, f);
    AddSwap(c, g, d, h);
    AddSwap(Add(a, b), Add(e, f), Add(c, d), Add(g, h));
  }

  lemma Sum4Pow(n: nat, a: Element, b: Element, c: Element, d: Element)
    ensures Sum4(Pow(n, a), Pow(n, b), Pow(n, c), Pow(n, d)) == Pow(n, Sum4(a, b, c, d))
  {
    hide Add, Pow;
    PowLinear(n, a, b);
    PowLinear(n, c, d);
    PowLinear(n, Add(a, b), Add(c, d));
  }

  /** Four terms at their places, weighted by the powers of alpha at these places. */
  ghost predicate Cancels(i: nat, j: nat, m: nat, n: nat, a: Element, b: Element, c: Element, d: Element) {
    Sum4(a, b, c, d) == 0 && Sum4(Pow(i, a), Pow(j, b), Pow(m, c), Pow(n, d)) == 0
  }

  lemma Eliminate(k: nat, i: nat, j: nat, m: nat, n: nat, a: Element, b: Element, c: Element, d: Element)
    requires Cancels(i, j, m, n, a, b, c, d)
    ensures Sum4(Diff(i, k, a), Diff(j, k, b), Diff(m, k, c), Diff(n, k, d)) == 0
  {
    hide Add, Pow, Sum4;
    Sum4Pow(k, a, b, c, d);
    PowZero(k);
    Sum4Swap(Pow(i, a), Pow(j, b), Pow(m, c), Pow(n, d), Pow(k, a), Pow(k, b), Pow(k, c), Pow(k, d));
    AddSelf(0);
  }

  lemma DiffPow(i: nat, k: nat, a: Element)
    ensures Diff(i, k, Pow(i, a)) == Pow(i, Diff(i, k, a)) && Diff(k, k, a) == 0
  {
    hide Add, Pow;
    PowLinear(i, Pow(i, a), Pow(k, a));
    PowCommutes(i, k, a);
    AddSelf(Pow(k, a));
  }

  lemma EliminateNext(k: nat, i: nat, j: nat, m: nat, n: nat, a: Element, b: Element, c: Element, d: Element)
    requires Cancels(i, j, m, n, Pow(i, a), Pow(j, b), Pow(m, c), Pow(n, d))
    ensures Sum4(Pow(i, Diff(i, k, a)), Pow(j, Diff(j, k, b)), Pow(m, Diff(m, k, c)), Pow(n, Diff(n, k, d))) == 0
  {
    hide Add, Pow, Diff, Sum4, Cancels;
    Eliminate(k, i, j, m, n, Pow(i, a), Pow(j, b), Pow(m, c), Pow(n, d));
    DiffPow(i, k, a);
    DiffPow(j, k, b);
    DiffPow(m, k, c);
    DiffPow(n, k, d);
  }

  lemma OneLess(i: nat, j: nat, m: nat, n: nat, a: Element, b: Element, c: Element, d: Element)
    requires Cancels(i, j, m, n, a, b, c, d)
    requires Cancels(i, j, m, n, Pow(i, a), Pow(j, b), Pow(m, c), Pow(n, d))
    ensures Cancels(i, j, m, n, Diff(i, n, a), Diff(j, n, b), Diff(m, n, c), Diff(n, n, d))
  {
    hide Add, Pow, Diff, Sum4;
    EliminateNext(n, i, j, m, n, a, b, c, d);
    Eliminate(n, i, j, m, n, a, b, c, d);
  }

  /** Two of four terms, each times its differences from the places of the other two, are equal. */
  lemma TwoLeft(i: nat, j: nat, m: nat, n: nat, a: Element, b: Element, c: Element, d: Element)
    requires Cancels(i, j, m, n, a, b, c, d)
    requires Cancels(i, j, m, n, Pow(i, a), Pow(j, b), Pow(m, c), Pow(n, d))
    ensures Diff(i, m, Diff(i, n, a)) == Diff(j, m, Diff(j, n, b))
  {
    hide Add, Pow, Diff, Sum4, Cancels;
    OneLess(i, j, m, n, a, b, c, d);
    var x, y, z := Diff(i, n, a), Diff(j, n, b), Diff(m, n, c);
    DiffPow(n, n, d);
    Eliminate(m, i, j, m, n, x, y, z, 0);
    DiffPow(m, m, z);
    DiffZero(n, m);
    TwoOfFour(Diff(i, m, x), Diff(j, m, y));
  }

  lemma DiffZero(m: nat, n: nat)
    ensures Diff(m, n, 0) == 0
  {
    hide Add, Pow;
    PowZero(m);
    PowZero(n);
    AddSelf(0);
  }

  lemma TwoOfFour(a: Element, b: Element)
    requires Sum4(a, b, 0, 0) == 0
    ensures a == b
  {
    hide Add;
    AddSelf(0);
    AddSelf(Add(a, b));
    AddZero(a, b);
  }

  lemma CancelsMoved(i: nat, j: nat, m: nat, n: nat, a: Element, b: Element, c: Element, d: Element)
    requires Cancels(i, j, m, n, a, b, c, d)
    ensures Cancels(i, m, j, n, a, c, b, d) && Cancels(i, n, j, m, a, d, b, c)
  {
    hide Add, Pow;
    Moved(a, b, c, d);
    Moved(Pow(i, a), Pow(j, b), Pow(m, c), Pow(n, d));
  }

  lemma Moved(a: Element, b: Element, c: Element, d: Element)
    ensures Sum4(a, b, c, d) == Sum4(a, c, b, d) == Sum4(a, d, b, c)
  {
    hide Add;
    AddSwap(a, b, c, d);
    AddCommutes(c, d);
    AddSwap(a, b, d, c);
  }

  /** The classes on both sides balance, for terms at 0 and `j` and the others at `m` and `n`. */
  lemma Balance(j: nat, m: nat, n: nat, a: Element, b: Element, c: Element, d: Element, q: int)
    requires 0 < m < 89 && 0 < n < 89 && InClass(a, 0)
    requires Cancels(0, j, m, n, a, b, c, d)
    requires Cancels(0, j, m, n, Pow(0, a), Pow(j, b), Pow(m, c), Pow(n, d))
    requires InClass(Diff(j, m, Diff(j, n, b)), q)
    ensures (Log(n) + Log(m) - q) % 33 == 0
  {
    hide Diff, InClass, Log, Cancels;
    TwoLeft(0, j, m, n, a, b, c, d);
    ClassDiff(0, n, a, 0);
    ClassDiff(0, m, Diff(0, n, a), Log(n));
    ClassUnique(Diff(0, m, Diff(0, n, a)), Log(n) + Log(m), q);
  }

  ghost predicate Balanced(a: nat, b: nat, c: nat)
    requires a < b < c
  {
    && (Log(b) + Log(c) - 26 * a - Log(b - a) - Log(c - a)) % 33 == 0
    && (Log(a) + Log(c) - 25 * b - a - Log(b - a) - Log(c - b)) % 33 == 0
    && (Log(a) + Log(b) - 24 * c - a - b - Log(c - a) - Log(c - b)) % 33 == 0
  }

  /** Terms of the classes of errors at the places 0, a, b and c that cancel out balance. */
  lemma FourTerms(a: nat, b: nat, c: nat, w: Element, x: Element, y: Element, z: Element)
    requires 0 < a < b < c < 89
    requires InClass(w, 0) && InClass(x, 24 * a) && InClass(y, 24 * b) && InClass(z, 24 * c)
    requires Cancels(0, a, b, c, w, x, y, z)
    requires Cancels(0, a, b, c, Pow(0, w), Pow(a, x), Pow(b, y), Pow(c, z))
    ensures Balanced(a, b, c)
  {
    hide Diff, InClass, Log, Cancels, Pow;
    CancelsMoved(0, a, b, c, w, x, y, z);
    CancelsMoved(0, a, b, c, Pow(0, w), Pow(a, x), Pow(b, y), Pow(c, z));
    ClassDiff(a, c, x, 24 * a);
    ClassDiff(a, b, Diff(a, c, x), 25 * a + Log(c - a));
    Balance(a, b, c, w, x, y, z, 26 * a + Log(c - a) + Log(b - a));
    ClassDiff(b, c, y, 24 * b);
    ClassDiff(a, b, Diff(b, c, y), 25 * b + Log(c - b));
    Balance(b, a, c, w, y, x, z, 25 * b + Log(c - b) + a + Log(b - a));
    ClassDiff(b, c, z, 24 * c);
    ClassDiff(a, c, Diff(c, b, z), 24 * c + b + Log(c - b));
    Balance(c, a, b, w, z, x, y, 24 * c + b + Log(c - b) + a + Log(c - a));
  }

  // ---------------------------------------------------------------- no such places

  function RankOf(d: nat): int {
    Rank(At(d)) as int
  }

  lemma RankIs(d: nat)
    requires 0 < d < 89
    ensures (4 * Log(d) + 15 * d - RankOf(d)) % 33 == 0 && 0 <= RankOf(d) < 33 && At(d) < 89
  {
    hide At, Rank, Part;
    Place88();
    AtNone();
    AtOrder(0, d);
    AtOrder(d, 89);
    AtIs(d);
    Parts(At(d));
    Ranks(At(d));
    PlaceOrder(Rank(At(d)), 33);
  }

  /** Two balances less the third leave twice what relates one difference to the opposite one. */
  lemma Opposite(w: int, l: int, m: int, r: int, s: int, d: int, e: int, x: int)
    requires w % 33 == 0 && w == 2 * (l - m) + 24 * (d - e) - 50 * x
    requires (4 * l + 15 * d - r) % 33 == 0 && (4 * m + 15 * e - s) % 33 == 0
    ensures (s + x - r) % 33 == 0
  {
    var i, j, k := w / 33, (4 * l + 15 * d - r) / 33, (4 * m + 15 * e - s) / 33;
    assert s + x - r == 33 * (j - k - 2 * i + d - e - 3 * x);
  }

  lemma Opposed(u: int, v: int, w: int, d: nat, e: nat, x: int)
    requires u % 33 == 0 && v % 33 == 0 && w % 33 == 0 && 0 < d < 89 && 0 < e < 89
    requires u + v - w == 2 * (Log(d) - Log(e)) + 24 * (d - e) - 50 * x
    ensures (RankOf(e) + x - RankOf(d)) % 33 == 0
  {
    hide Log, RankOf, At;
    RankIs(d);
    RankIs(e);
    assert u + v - w == 33 * (u / 33 + v / 33 - w / 33);
    Opposite(u + v - w, Log(d), Log(e), RankOf(d), RankOf(e), d, e, x);
  }

  lemma Multiples()
    ensures At(0) == 0 && At(33) == 33 && At(66) == 66 && At(99) == 99
  {
    hide At;
    AtNumber(0);
    AtNumber(33);
    AtNumber(66);
    AtNumber(99);
  }

  lemma SameBy(r: Place)
    ensures Same(r, Later(r, 0)) && Same(r, Later(r, 33)) && Same(r, Later(r, 66)) && Same(r, Later(r, 99))
  {
  }

  lemma SamePlace(r: nat, s: nat, x: nat)
    requires r < 33 && s < 33 && x < 89 && (s + x - r) % 33 == 0
    ensures Same(At(r), Later(At(s), At(x)))
  {
    hide At, Same, Later;
    var k := (s + x - r) / 33;
    assert s + x == r + 33 * k && (k == 0 || k == 1 || k == 2 || k == 3);
    AtSum(s, x);
    AtSum(r, 33 * k);
    Multiples();
    SameBy(At(r));
  }

  lemma SameRank(d: nat, e: nat, x: nat)
    requires 0 < d < 89 && 0 < e < 89 && x < 89 && (RankOf(e) + x - RankOf(d)) % 33 == 0
    ensures Same(Rank(At(d)), Later(Rank(At(e)), At(x)))
  {
    hide At, Rank, Log, Same, Later;
    RankIs(d);
    RankIs(e);
    AtNumber(Rank(At(d)));
    AtNumber(Rank(At(e)));
    SamePlace(RankOf(d), RankOf(e), x);
  }

  lemma AtDifference(m: nat, n: nat)
    requires m <= n
    ensures Between(At(m), At(n)) == At(n - m)
  {
    hide At, Later, Between;
    AtSum(n - m, m);
    BetweenLater(At(m), At(n - m));
  }

  lemma Clashes(a: nat, b: nat, c: nat)
    requires 0 < a < b < c < 89
    requires (RankOf(b - a) + a - RankOf(c)) % 33 == 0 && (RankOf(c - a) + a - RankOf(b)) % 33 == 0
    requires (RankOf(c - b) + b - RankOf(a)) % 33 == 0
    ensures Clash(At(a), At(b), At(c))
  {
    hide RankOf, At, Same, Rank, Later, Between;
    SameRank(c, b - a, a);
    SameRank(b, c - a, a);
    SameRank(a, c - b, b);
    AtDifference(a, b);
    AtDifference(a, c);
    AtDifference(b, c);
  }

  lemma Ordered(a: nat, b: nat, c: nat)
    requires 0 < a < b < c < 89
    ensures 0 < At(a) < At(b) < At(c) < 89
  {
    hide At;
    Place88();
    AtNone();
    AtOrder(0, a);
    AtOrder(a, b);
    AtOrder(b, c);
    AtOrder(c, 89);
  }

  /** The classes balance for no four places within 89. */
  lemma NeverBalanced(a: nat, b: nat, c: nat)
    requires 0 < a < b < c < 89
    ensures !Balanced(a, b, c)
  {
    hide Log, RankOf, At, Clash;
    if Balanced(a, b, c) {
      var la, lb, lc, lba, lca, lcb := Log(a), Log(b), Log(c), Log(b - a), Log(c - a), Log(c - b);
      var u := lb + lc - 26 * a - lba - lca;
      var v := la + lc - 25 * b - a - lba - lcb;
      var w := la + lb - 24 * c - a - b - lca - lcb;
      Opposed(u, v, w, c, b - a, a);
      Opposed(u, w, v, b, c - a, a);
      Opposed(v, w, u, a, c - b, b);
      Clashes(a, b, c);
      Ordered(a, b, c);
      NoClash(At(a), At(b), At(c));
    }
  }
}
