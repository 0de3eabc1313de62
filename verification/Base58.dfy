/**
 * Base58 text: numbers as digit strings without leading zeroes, and the
 * bounds that make the conversion buffers large enough.
 */
module Base58 {
  // ---------------------------------------------------------------- powers

  function Pow(b: nat, n: nat): nat {
    if n == 0 then 1 else b * Pow(b, n - 1)
  }

  lemma MulMonotone(a: int, b: int, c: nat)
    requires a <= b
    ensures a * c <= b * c
  {
  }

  lemma Associate(a: int, b: int, c: int)
    ensures a * (b * c) == (a * b) * c
  {
  }

  lemma {:induction false} PowAdd(b: nat, m: nat, n: nat)
    ensures Pow(b, m + n) == Pow(b, m) * Pow(b, n)
  {
    if m > 0 {
      PowAdd(b, m - 1, n);
      Associate(b, Pow(b, m - 1), Pow(b, n));
    }
  }

  lemma {:induction false} PowPositive(b: nat, n: nat)
    requires b > 0
    ensures Pow(b, n) >= 1
  {
    if n > 0 {
      PowPositive(b, n - 1);
      MulMonotone(1, b, Pow(b, n - 1));
    }
  }

  lemma PowMonotone(b: nat, m: nat, n: nat)
    requires b > 0 && m <= n
    ensures Pow(b, m) <= Pow(b, n)
  {
    PowAdd(b, n - m, m);
    PowPositive(b, n - m);
    MulMonotone(1, Pow(b, n - m), Pow(b, m));
  }

  lemma {:induction false} PowMul(b: nat, m: nat, n: nat)
    ensures Pow(Pow(b, m), n) == Pow(b, m * n)
  {
    if n > 0 {
      PowMul(b, m, n - 1);
      PowAdd(b, m, m * (n - 1));
      assert m + m * (n - 1) == m * n;
    }
  }

  lemma {:induction false} BaseMonotone(a: nat, b: nat, n: nat)
    requires a <= b
    ensures Pow(a, n) <= Pow(b, n)
  {
    if n > 0 {
      BaseMonotone(a, b, n - 1);
      MulMonotone(Pow(a, n - 1), Pow(b, n - 1), a);
      MulMonotone(a, b, Pow(b, n - 1));
    }
  }

  lemma {:induction false} BaseStrict(a: nat, b: nat, n: nat)
    requires a < b && n > 0
    ensures Pow(a, n) < Pow(b, n)
  {
    BaseMonotone(a, b, n - 1);
    PowPositive(b, n - 1);
    MulMonotone(Pow(a, n - 1), Pow(b, n - 1), a);
    MulMonotone(a + 1, b, Pow(b, n - 1));
    assert (a + 1) * Pow(b, n - 1) == a * Pow(b, n - 1) + Pow(b, n - 1);
  }

  /** Comparing `q`-th powers compares the numbers. */
  lemma RootAtMost(a: nat, b: nat, q: nat)
    requires q > 0 && Pow(a, q) <= Pow(b, q)
    ensures a <= b
  {
    if a > b { BaseStrict(b, a, q); }
  }

  /**
   * If `a^q <= b^p` and `m` is at least `n * p / q`, then `n` digits of base
   * `a` fit in `m` digits of base `b`.
   */
  lemma DigitsFit(a: nat, b: nat, p: nat, q: nat, n: nat, m: nat)
    requires b > 0 && q > 0 && Pow(a, q) <= Pow(b, p) && p * n <= m * q
    ensures Pow(a, n) <= Pow(b, m)
  {
    hide Pow;
    MulMonotone(0, p, n);
    PowerChain(a, b, p, q, n, m, p * n, m * q);
    RootAtMost(Pow(a, n), Pow(b, m), q);
  }

  lemma PowerChain(a: nat, b: nat, p: nat, q: nat, n: nat, m: nat, e: nat, f: nat)
    requires b > 0 && Pow(a, q) <= Pow(b, p) && e == p * n && f == m * q && e <= f
    ensures Pow(Pow(a, n), q) <= Pow(Pow(b, m), q)
  {
    hide Pow;
    BaseMonotone(Pow(a, q), Pow(b, p), n);
    PowSwap(a, q, n);
    PowMul(b, p, n);
    PowMonotone(b, e, f);
    PowMul(b, m, q);
  }

  lemma PowSwap(a: nat, q: nat, n: nat)
    ensures Pow(Pow(a, q), n) == Pow(Pow(a, n), q)
  {
    hide Pow;
    PowMul(a, q, n);
    PowMul(a, n, q);
    assert q * n == n * q;
  }

  lemma EightBytes()
    ensures Pow(256, 8) <= Pow(58, 11)
  {
    assert Pow(256, 4) == 0x1_0000_0000;
    PowAdd(256, 4, 4);
    assert Pow(58, 4) == 11316496;
    PowAdd(58, 4, 4);
    assert Pow(58, 3) == 195112;
    PowAdd(58, 8, 3);
  }

  /** The encoder's buffer of 138/100 digits per byte is large enough. */
  lemma EncodeRoom(n: nat)
    ensures Pow(256, n) <= Pow(58, n * 138 / 100 + 1)
  {
    hide Pow;
    EightBytes();
    DigitsFit(256, 58, 11, 8, n, n * 138 / 100 + 1);
  }

  lemma SeventyOneDigits()
    ensures Pow(58, 71) <= Pow(256, 52)
  {
    PowersOf58();
    PowersOf256();
  }

  lemma SmallPowers()
    ensures Pow(58, 4) == 11316496 && Pow(58, 3) == 195112 && Pow(256, 4) == 0x1_0000_0000
  {
  }

  lemma PowersOf58()
    ensures Pow(58, 71) ==
      0xf1a10f76073f997e1af0b37f5c795ecf145633452837a5de3fa17ac74b86f60a0ebe5446f358940a4ca12a800000000000000000
  {
    hide Pow;
    SmallPowers();
    PowAdd(58, 4, 4);
    PowAdd(58, 8, 8);
    PowAdd(58, 16, 16);
    PowAdd(58, 32, 32);
    PowAdd(58, 64, 4);
    PowAdd(58, 68, 3);
  }

  lemma PowersOf256()
    ensures Pow(256, 52) ==
      0x100000000000000000000000000000000000000000000000000000000000000000000000000000000000000000000000000000000
  {
    hide Pow;
    SmallPowers();
    PowAdd(256, 4, 4);
    PowAdd(256, 8, 8);
    PowAdd(256, 16, 16);
    PowAdd(256, 32, 16);
    PowAdd(256, 48, 4);
  }

  /** The decoder's buffer of 733/1000 bytes per character is large enough. */
  lemma DecodeRoom(n: nat)
    ensures Pow(58, n) <= Pow(256, n * 733 / 1000 + 1)
  {
    hide Pow;
    SeventyOneDigits();
    DigitsFit(58, 256, 52, 71, n, n * 733 / 1000 + 1);
  }

  // ---------------------------------------------------------------- digit strings

  ghost predicate Digits(d: seq<int>, base: nat) {
    forall i :: 0 <= i < |d| ==> 0 <= d[i] < base
  }

  /** The number a digit string spells, most significant digit first. */
  ghost function Number(d: seq<int>, base: nat): int {
    if d == [] then 0 else Number(d[..|d| - 1], base) * base + d[|d| - 1]
  }

  /** No leading zero; zero itself has no digits. */
  ghost predicate Canonical(d: seq<int>) {
    d == [] || d[0] != 0
  }

  ghost function ToBase(v: nat, base: nat): seq<int>
    requires base >= 2
  {
    Quotient(v, base);
    if v == 0 then [] else ToBase(v / base, base) + [v % base]
  }

  lemma Quotient(v: nat, base: nat)
    requires base >= 2
    ensures 0 <= v / base <= v && 0 <= v % base < base && v == v / base * base + v % base
    ensures v > 0 ==> v / base < v
  {
    var q := v / base;
    assert v == q * base + v % base;
    if q > 0 { MulMonotone(2, base, q); } else if q < 0 { MulMonotone(q, -1, base); }
  }

  lemma {:induction false} ToBaseIs(v: nat, base: nat)
    requires base >= 2
    ensures Number(ToBase(v, base), base) == v && Canonical(ToBase(v, base)) && Digits(ToBase(v, base), base)
    ensures v > 0 ==> ToBase(v, base) != []
  {
    Quotient(v, base);
    if v > 0 {
      var q, r := v / base, v % base;
      ToBaseIs(q, base);
      var d := ToBase(q, base);
      assert ToBase(v, base) == d + [r];
      hide ToBase;
      NumberSnoc(d, r, base);
    }
  }

  lemma NumberSnoc(d: seq<int>, x: int, base: nat)
    ensures Number(d + [x], base) == Number(d, base) * base + x
  {
    assert (d + [x])[..|d|] == d;
  }

  lemma {:induction false} NumberRange(d: seq<int>, base: nat)
    requires base >= 2 && Digits(d, base)
    ensures 0 <= Number(d, base) < Pow(base, |d|)
    ensures Canonical(d) && d != [] ==> Number(d, base) > 0
  {
    if d != [] {
      var n := |d| - 1;
      NumberRange(d[..n], base);
      if n > 0 { assert d[..n][0] == d[0]; }
      HornerRange(Number(d[..n], base), d[n], base, Pow(base, n));
    }
  }

  lemma HornerRange(v: nat, x: int, base: nat, p: nat)
    requires v < p && 0 <= x < base
    ensures 0 <= v * base + x < base * p
    ensures v > 0 ==> v * base + x > 0
  {
    MulMonotone(v, p - 1, base);
    if v > 0 { MulMonotone(1, v, base); }
    MulMonotone(0, v, base);
    assert (p - 1) * base == base * p - base;
  }

  /** Digits without a leading zero are determined by the number. */
  lemma {:induction false} ToBaseUnique(d: seq<int>, base: nat)
    requires base >= 2 && Digits(d, base) && Canonical(d)
    ensures Number(d, base) >= 0 && ToBase(Number(d, base), base) == d
  {
    NumberRange(d, base);
    if d != [] {
      var n := |d| - 1;
      var e := d[..n];
      if n > 0 { assert e[0] == d[0]; }
      ToBaseUnique(e, base);
      NumberRange(e, base);
      LastDigit(Number(e, base), d[n], base);
      assert d == e + [d[n]];
    }
  }

  lemma LastDigit(v: nat, x: int, base: nat)
    requires 0 <= x < base
    ensures v * base + x >= 0 && (v * base + x) / base == v && (v * base + x) % base == x
  {
    var t := v * base + x;
    MulMonotone(0, v, base);
    var q, r := t / base, t % base;
    assert t == q * base + r;
    assert (q - v) * base == x - r;
    if q - v >= 1 { MulMonotone(1, q - v, base); } else if q - v <= -1 { MulMonotone(q - v, -1, base); }
  }

  /** Leading zeroes do not change the number. */
  lemma {:induction false} NumberTrim(d: seq<int>, base: nat, k: nat)
    requires k <= |d| && forall i :: 0 <= i < k ==> d[i] == 0
    ensures Number(d, base) == Number(d[k..], base)
    decreases |d|
  {
    if k == |d| {
      NumberZero(d, base);
    } else {
      var n := |d| - 1;
      NumberTrim(d[..n], base, k);
      assert d[..n][k..] == d[k..][..n - k];
    }
  }

  lemma {:induction false} NumberZero(d: seq<int>, base: nat)
    requires forall i :: 0 <= i < |d| ==> d[i] == 0
    ensures Number(d, base) == 0
  {
    if d != [] { NumberZero(d[..|d| - 1], base); }
  }
}
