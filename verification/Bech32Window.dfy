/**
 * The remaining promise of the Bech32 checksum: any change of up to four symbols within 89 is
 * noticed.
 */
module Bech32Window {
  import opened BchField
  import opened BchClasses
  import opened Bech32
  import opened Bech32Errors

  // ---------------------------------------------------------------- four errors

  /** A list with symbols at three distances before the last one and zeros between. */
  function Four(a: Symbol, b: Symbol, c: Symbol, d: Symbol, p: nat, q: nat, r: nat): seq<Symbol>
    requires 0 < r < q < p
  {
    Three(a, b, c, p - r, q - r) + (Zeros(r - 1) + [d])
  }

  lemma EvalLast(s: nat, a: Symbol, b: Symbol, c: Symbol, d: Symbol, p: nat, q: nat, r: nat)
    requires Root(s) && 0 < r < q < p
    ensures Eval(s, Run(0, Four(a, b, c, d, p, q, r)))
         == Add(Embed(d), Pow(s * r, Eval(s, Run(0, Three(a, b, c, p - r, q - r)))))
  {
    hide Step, Eval, Pow, Add, Embed, Run, Zeros, Root, Three;
    var t := Three(a, b, c, p - r, q - r);
    RunAppend(0, t, Zeros(r - 1) + [d]);
    RunBound(0, t);
    EvalGap(s, Run(0, t), r, d);
  }

  lemma EvalFour(s: nat, a: Symbol, b: Symbol, c: Symbol, d: Symbol, p: nat, q: nat, r: nat)
    requires Root(s) && 0 < r < q < p
    ensures Eval(s, Run(0, Four(a, b, c, d, p, q, r)))
         == Sum4(Embed(d), Pow(s * r, Embed(c)), Pow(s * q, Embed(b)), Pow(s * p, Embed(a)))
  {
    hide Eval, Pow, Add, Embed, Run, Root, Three, Four, Sum4;
    EvalLast(s, a, b, c, d, p, q, r);
    EvalThree(s, a, b, c, p - r, q - r);
    LastAdded(s, p, q, r, Embed(a), Embed(b), Embed(c), Embed(d));
  }

  lemma LastAdded(s: nat, p: nat, q: nat, r: nat, x: Element, y: Element, z: Element, w: Element)
    requires r <= q <= p
    ensures Add(w, Pow(s * r, Add(Add(Pow(s * (p - r), x), Pow(s * (q - r), y)), z)))
         == Sum4(w, Pow(s * r, z), Pow(s * q, y), Pow(s * p, x))
  {
    hide Pow, Add, Sum4;
    ThreeFurther(s, p, q, r, x, y, z);
    FourInOrder(w, Pow(s * p, x), Pow(s * q, y), Pow(s * r, z));
  }

  lemma ThreeFurther(s: nat, p: nat, q: nat, r: nat, x: Element, y: Element, z: Element)
    requires r <= q <= p
    ensures Pow(s * r, Add(Add(Pow(s * (p - r), x), Pow(s * (q - r), y)), z))
         == Add(Add(Pow(s * p, x), Pow(s * q, y)), Pow(s * r, z))
  {
    hide Pow, Add;
    PowLinear(s * r, Add(Pow(s * (p - r), x), Pow(s * (q - r), y)), z);
    PowLinear(s * r, Pow(s * (p - r), x), Pow(s * (q - r), y));
    Further(s, r, p, x);
    Further(s, r, q, y);
  }

  lemma Further(s: nat, r: nat, p: nat, v: Element)
    requires r <= p
    ensures Pow(s * r, Pow(s * (p - r), v)) == Pow(s * p, v)
  {
    hide Pow;
    PowAdd(s * r, s * (p - r), v);
    assert s * r + s * (p - r) == s * p;
  }

  lemma FourInOrder(w: Element, x: Element, y: Element, z: Element)
    ensures Add(w, Add(Add(x, y), z)) == Sum4(w, z, y, x)
  {
    hide Add;
    AddCommutes(Add(x, y), z);
    AddCommutes(x, y);
    AddAssociates(w, z, Add(x, y));
  }

  /** The values of an error list at the three roots, as terms at their places. */
  lemma FourCancel(a: Symbol, b: Symbol, c: Symbol, d: Symbol, p: nat, q: nat, r: nat)
    requires 0 < r < q < p && Run(0, Four(a, b, c, d, p, q, r)) == 0
    ensures
      var w, x, y, z := Embed(d), Pow(24 * r, Embed(c)), Pow(24 * q, Embed(b)), Pow(24 * p, Embed(a));
      && Cancels(0, r, q, p, w, x, y, z)
      && Cancels(0, r, q, p, Pow(0, w), Pow(r, x), Pow(q, y), Pow(p, z))
  {
    hide Run, Four, Eval, Pow, Add, Embed, Sum4;
    var w, x, y, z := Embed(d), Pow(24 * r, Embed(c)), Pow(24 * q, Embed(b)), Pow(24 * p, Embed(a));
    EvalFour(24, a, b, c, d, p, q, r);
    EvalFour(25, a, b, c, d, p, q, r);
    EvalFour(26, a, b, c, d, p, q, r);
    EvalNothing(24);
    EvalNothing(25);
    EvalNothing(26);
    NoPower(w);
    Weights(r, Embed(c));
    Weights(q, Embed(b));
    Weights(p, Embed(a));
  }

  lemma Weights(n: nat, v: Element)
    ensures Pow(25 * n, v) == Pow(n, Pow(24 * n, v)) && Pow(26 * n, v) == Pow(n, Pow(n, Pow(24 * n, v)))
  {
    hide Pow;
    PowShift(1, n, v);
    PowShift(2, n, v);
    PowAdd(n, n, Pow(24 * n, v));
  }

  /** Four symbols other than zero within 89 always leave something. */
  lemma FourLeaveSomething(a: Symbol, b: Symbol, c: Symbol, d: Symbol, p: nat, q: nat, r: nat)
    requires 0 < r < q < p < 89 && a != 0 && b != 0 && c != 0 && d != 0
    ensures Run(0, Four(a, b, c, d, p, q, r)) != 0
  {
    hide Run, Four, Pow, Embed, InClass, Cancels, Balanced;
    if Run(0, Four(a, b, c, d, p, q, r)) == 0 {
      SymbolClass(a);
      SymbolClass(b);
      SymbolClass(c);
      SymbolClass(d);
      ClassPow(Embed(c), 0, 24 * r);
      ClassPow(Embed(b), 0, 24 * q);
      ClassPow(Embed(a), 0, 24 * p);
      FourCancel(a, b, c, d, p, q, r);
      FourTerms(r, q, p, Embed(d), Pow(24 * r, Embed(c)), Pow(24 * q, Embed(b)), Pow(24 * p, Embed(a)));
      NeverBalanced(r, q, p);
    }
  }

  ghost predicate OnlyAtFour(v: seq<Symbol>, w: seq<Symbol>, i: nat, j: nat, k: nat, l: nat)
    requires |v| == |w|
  {
    forall p :: 0 <= p < |v| && v[p] != w[p] ==> p == i || p == j || p == k || p == l
  }

  lemma FourPieces(v: seq<Symbol>, w: seq<Symbol>, i: nat, j: nat, k: nat, l: nat)
    requires |v| == |w| && OnlyAtFour(v, w, i, j, k, l) && i < j < k < l < |v|
    ensures Sum(v, w)
         == Zeros(i) + Four(v[i] ^ w[i], v[j] ^ w[j], v[k] ^ w[k], v[l] ^ w[l], l - i, l - j, l - k)
            + Zeros(|v| - 1 - l)
  {
    hide Sum, Zeros, Three, OnlyAt, OnlyAtFour, Four;
    var n := k + 1;
    FewerBefore(v, w, i, j, k, l);
    SumPieces(v[..n], w[..n], i, j, k);
    SumSplit(v, w, n);
    RestPieces(v, w, n, l);
    NoZeros();
    var a, b, c, d := v[i] ^ w[i], v[j] ^ w[j], v[k] ^ w[k], v[l] ^ w[l];
    FourJoined(a, b, c, d, i, l - i, l - j, l - k, |v| - 1 - l, Sum(v, w));
  }

  lemma FewerBefore(v: seq<Symbol>, w: seq<Symbol>, i: nat, j: nat, k: nat, l: nat)
    requires |v| == |w| && OnlyAtFour(v, w, i, j, k, l) && i < j < k < l < |v|
    ensures OnlyAt(v[..k + 1], w[..k + 1], i, j, k)
    ensures forall p :: k + 1 <= p < |v| && v[p] != w[p] ==> p == l
  {
  }

  lemma SumSplit(v: seq<Symbol>, w: seq<Symbol>, n: nat)
    requires |v| == |w| && n <= |v|
    ensures Sum(v, w) == Sum(v[..n], w[..n]) + Sum(v, w)[n..]
  {
  }

  lemma NoZeros()
    ensures Zeros(0) == []
  {
  }

  lemma FourJoined(a: Symbol, b: Symbol, c: Symbol, d: Symbol, i: nat, p: nat, q: nat, r: nat, n: nat, s: seq<Symbol>)
    requires 0 < r < q < p && Zeros(0) == []
    requires s == Zeros(i) + Three(a, b, c, p - r, q - r) + Zeros(0) + (Zeros(r - 1) + [d] + Zeros(n))
    ensures s == Zeros(i) + Four(a, b, c, d, p, q, r) + Zeros(n)
  {
    hide Zeros, Three;
  }

  lemma RestPieces(v: seq<Symbol>, w: seq<Symbol>, n: nat, l: nat)
    requires |v| == |w| && n <= l < |v| && forall p :: n <= p < |v| && v[p] != w[p] ==> p == l
    ensures Sum(v, w)[n..] == Zeros(l - n) + [v[l] ^ w[l]] + Zeros(|v| - 1 - l)
  {
    forall p | 0 <= p < |v|
      ensures v[p] == w[p] ==> Sum(v, w)[p] == 0
    {
      SameSymbol(v[p]);
    }
  }

  lemma DifferentSymbols(x: Symbol, y: Symbol)
    requires x != y
    ensures x ^ y != 0
  {
    if x ^ y == 0 {
      SymbolsEqual(x, y);
    }
  }

  lemma FourApart(s: bv32, v: seq<Symbol>, w: seq<Symbol>, i: nat, j: nat, k: nat, l: nat)
    requires |v| == |w| && OnlyAtFour(v, w, i, j, k, l) && i < j < k < l < |v| && l - i < 89
    requires v[i] != w[i] && v[j] != w[j] && v[k] != w[k] && v[l] != w[l]
    ensures Run(s, v) != Run(s, w)
  {
    hide Run, Xor, Sum, Zeros, Four, OnlyAtFour;
    if Run(s, v) == Run(s, w) {
      var a, b, c, d := v[i] ^ w[i], v[j] ^ w[j], v[k] ^ w[k], v[l] ^ w[l];
      var t := Four(a, b, c, d, l - i, l - j, l - k);
      RunLinear(s, s, v, w);
      XorSelf(s);
      XorSelf(Run(s, v));
      FourPieces(v, w, i, j, k, l);
      RunAppend(0, Zeros(i) + t, Zeros(|v| - 1 - l));
      RunAppend(0, Zeros(i), t);
      RunZeros(i);
      RunBound(0, t);
      DifferenceSurvives(Run(0, t), |v| - 1 - l);
      DifferentSymbols(v[i], w[i]);
      DifferentSymbols(v[j], w[j]);
      DifferentSymbols(v[k], w[k]);
      DifferentSymbols(v[l], w[l]);
      FourLeaveSomething(a, b, c, d, l - i, l - j, l - k);
    }
  }

  /**
   * Two different lists that differ in at most four symbols, all within 89 consecutive ones,
   * leave different remainders.
   */
  lemma FourErrorsChange(s: bv32, v: seq<Symbol>, w: seq<Symbol>, i: nat, j: nat, k: nat, l: nat)
    requires |v| == |w| && OnlyAtFour(v, w, i, j, k, l) && v != w
    requires i <= j <= k <= l < |v| && l - i < 89 && s < LIMIT
    ensures Run(s, v) != Run(s, w)
  {
    hide Run;
    if i == j || v[i] == w[i] {
      ThreeErrorsChange(s, v, w, j, k, l);
    } else if j == k || v[j] == w[j] {
      ThreeErrorsChange(s, v, w, i, k, l);
    } else if k == l || v[k] == w[k] {
      ThreeErrorsChange(s, v, w, i, j, l);
    } else if v[l] == w[l] {
      ThreeErrorsChange(s, v, w, i, j, k);
    } else {
      FourApart(s, v, w, i, j, k, l);
    }
  }

  /** Error detection in the data: two such lists never both verify. */
  lemma FourErrorsDetected(hrp: Text, v: seq<Symbol>, w: seq<Symbol>, i: nat, j: nat, k: nat, l: nat)
    requires |v| == |w| && OnlyAtFour(v, w, i, j, k, l) && v != w && i <= j <= k <= l < |v| && l - i < 89
    ensures !(Verifies(hrp, v) && Verifies(hrp, w))
  {
    hide Run;
    var e := Expand(hrp);
    var n := |e|;
    forall p | 0 <= p < n + |v| && (e + v)[p] != (e + w)[p]
      ensures p == n + i || p == n + j || p == n + k || p == n + l
    {
      assert p >= n && (e + v)[p] == v[p - n] && (e + w)[p] == w[p - n];
    }
    assert e + v != e + w by { assert v == (e + v)[n..] && w == (e + w)[n..]; }
    FourErrorsChange(1, e + v, e + w, n + i, n + j, n + k, n + l);
  }

  // ---------------------------------------------------------------- mistyped text

  /**
   * Mistyping up to four characters after the separator of a valid text, none of them into
   * another separator, gives a text that is not decoded.
   */
  lemma MistypedRejected(s: Text, t: Text, pos: nat, i: nat, j: nat, k: nat, l: nat)
    requires DecodeText(s).Some? && |s| == |t| && LastSeparator(s) == LastSeparator(t) == pos
    requires forall p :: 0 <= p < |s| && LowerCase(s[p]) != LowerCase(t[p]) ==> p == i || p == j || p == k || p == l
    requires pos < i <= j <= k <= l < |s| && Lowered(s) != Lowered(t)
    ensures DecodeText(t).None?
  {
    hide Verifies, LowerCase, SymbolOf, LastSeparator, OnlyAtFour, Spells, Symbols, DecodeText;
    if DecodeText(t).Some? {
      DecodedParts(s, pos);
      DecodedParts(t, pos);
      var n, x, y := pos + 1, s[pos + 1..], t[pos + 1..];
      var v, w := Symbols(x), Symbols(y);
      SymbolsDiffer(x, y);
      MovedPositions(s, t, pos, v, w, i, j, k, l);
      FourErrorsDetected(Lowered(s[..pos]), v, w, i - n, j - n, k - n, l - n);
    }
  }

  lemma MovedPositions(s: Text, t: Text, pos: nat, v: seq<Symbol>, w: seq<Symbol>, i: nat, j: nat, k: nat, l: nat)
    requires |s| == |t| && pos < i <= j <= k <= l < |s| && |v| == |w| == |s| - pos - 1
    requires Lowered(s) != Lowered(t)
    requires forall p :: 0 <= p < |s| && LowerCase(s[p]) != LowerCase(t[p]) ==> p == i || p == j || p == k || p == l
    requires forall p :: 0 <= p < |v| ==>
      (v[p] == w[p] <==> LowerCase(s[pos + 1..][p]) == LowerCase(t[pos + 1..][p]))
    ensures OnlyAtFour(v, w, i - pos - 1, j - pos - 1, k - pos - 1, l - pos - 1) && v != w
    ensures Lowered(s[..pos]) == Lowered(t[..pos])
  {
    hide LowerCase;
    var x, y := s[pos + 1..], t[pos + 1..];
    forall q | 0 <= q < |v| && v[q] != w[q]
      ensures q == i - pos - 1 || q == j - pos - 1 || q == k - pos - 1 || q == l - pos - 1
    {
      assert x[q] == s[pos + 1 + q] && y[q] == t[pos + 1 + q];
    }
    var p :| 0 <= p < |s| && Lowered(s)[p] != Lowered(t)[p];
    var q := p - pos - 1;
    assert x[q] == s[p] && y[q] == t[p];
    assert v[q] != w[q];
  }
}
