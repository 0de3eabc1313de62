/** Powers of two. */
module Powers {

  function Pow2(n: nat): (r: nat)
    ensures r >= 1
  {
    if n == 0 then 1 else 2 * Pow2(n - 1)
  }

  lemma {:induction false} Pow2Add(a: nat, b: nat)
    ensures Pow2(a + b) == Pow2(a) * Pow2(b)
  {
    if a > 0 {
      Pow2Add(a - 1, b);
      assert 2 * (Pow2(a - 1) * Pow2(b)) == (2 * Pow2(a - 1)) * Pow2(b);
    }
  }

  lemma {:induction false} Pow2Monotone(a: nat, b: nat)
    requires a <= b
    ensures Pow2(a) <= Pow2(b)
  {
    if a < b {
      Pow2Monotone(a, b - 1);
    }
  }

  /** The least exponent whose power of two reaches `x`. */
  function CeilLog2(x: nat): (c: nat)
    requires x >= 1
    ensures Pow2(c) >= x
    ensures c > 0 ==> Pow2(c - 1) < x
  {
    if x == 1 then 0 else 1 + CeilLog2((x + 1) / 2)
  }

  lemma CeilLog2Is(x: nat, c: nat)
    requires x >= 1 && Pow2(c) >= x && (c > 0 ==> Pow2(c - 1) < x)
    ensures CeilLog2(x) == c
  {
    var d := CeilLog2(x);
    if d < c {
      Pow2Monotone(d, c - 1);
    } else if c < d {
      Pow2Monotone(c, d - 1);
    }
  }
}
