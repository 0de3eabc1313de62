/** Base58 strings: round trips both ways, and the in-place conversion loops. */
module Base58Codec {
  import opened Base58
  import opened Options

  type Chars = seq<int>

  const ONE: int := 49

  /** The character of a digit: 1-9, A-H, J-N, P-Z, a-k, m-z. */
  function LetterOf(d: int): int {
    if d < 9 then 49 + d else if d < 17 then 56 + d else if d < 22 then 57 + d
    else if d < 33 then 58 + d else if d < 44 then 64 + d else 65 + d
  }

  /** The digit of a character, or -1. */
  function DigitOf(c: int): int {
    if 49 <= c <= 57 then c - 49 else if 65 <= c <= 72 then c - 56 else if 74 <= c <= 78 then c - 57
    else if 80 <= c <= 90 then c - 58 else if 97 <= c <= 107 then c - 64 else if 109 <= c <= 122 then c - 65
    else -1
  }

  predicate IsSpace(c: int) { c == 32 || 9 <= c <= 13 }

  lemma LetterDigit(d: int)
    requires 0 <= d < 58
    ensures DigitOf(LetterOf(d)) == d && !IsSpace(LetterOf(d))
    ensures LetterOf(d) == ONE <==> d == 0
  {
  }

  lemma DigitLetter(c: int)
    requires DigitOf(c) != -1
    ensures 0 <= DigitOf(c) < 58 && LetterOf(DigitOf(c)) == c
    ensures DigitOf(c) == 0 <==> c == ONE
  {
  }

  /** The letters are the digits and Latin letters without 0, I, O and l, in the order of their codes. */
  lemma Alphabet(c: int, d: int)
    ensures DigitOf(c) != -1 <==>
      (48 <= c <= 57 || 65 <= c <= 90 || 97 <= c <= 122) && c != 48 && c != 73 && c != 79 && c != 108
    ensures DigitOf(c) != -1 && DigitOf(d) != -1 && c < d ==> DigitOf(c) < DigitOf(d)
  {
  }

  function Repeat(x: int, n: nat): (r: seq<int>)
    ensures |r| == n
  {
    seq(n, i => x)
  }

  function Spell(d: seq<int>): (s: Chars)
    ensures |s| == |d|
  {
    seq(|d|, i requires 0 <= i < |d| => LetterOf(d[i]))
  }

  function Values(s: Chars): (d: seq<int>)
    ensures |d| == |s|
  {
    seq(|s|, i requires 0 <= i < |s| => DigitOf(s[i]))
  }

  predicate Letters(s: Chars) {
    forall i :: 0 <= i < |s| ==> DigitOf(s[i]) != -1
  }

  predicate Spaces(s: Chars) {
    forall i :: 0 <= i < |s| ==> IsSpace(s[i])
  }

  /** How many elements at the front equal `x`. */
  function Leading(s: seq<int>, x: int): (n: nat)
    ensures n <= |s|
  {
    if s != [] && s[0] == x then 1 + Leading(s[1..], x) else 0
  }

  /** How many characters at the front are spaces, or are not. */
  function SpaceRun(s: Chars): (n: nat)
    ensures n <= |s|
  {
    if s != [] && IsSpace(s[0]) then 1 + SpaceRun(s[1..]) else 0
  }

  function WordRun(s: Chars): (n: nat)
    ensures n <= |s|
  {
    if s != [] && !IsSpace(s[0]) then 1 + WordRun(s[1..]) else 0
  }

  ghost function EncodeText(b: seq<int>): Chars
    requires Digits(b, 256)
  {
    var z := Leading(b, 0);
    NumberRange(b[z..], 256);
    Repeat(ONE, z) + Spell(ToBase(Number(b[z..], 256), 58))
  }

  /** The bytes a word of letters stands for, after `z` leading ones. */
  ghost function Body(z: nat, word: Chars): seq<int>
    requires Letters(word)
  {
    ValuesAreDigits(word);
    NumberRange(Values(word), 58);
    Repeat(0, z) + ToBase(Number(Values(word), 58), 256)
  }

  ghost function DecodeText(s: Chars): Option<seq<int>> {
    var t := s[SpaceRun(s)..];
    var z := Leading(t, ONE);
    var u := t[z..];
    var w := WordRun(u);
    if Letters(u[..w]) && Spaces(u[w..]) then Some(Body(z, u[..w])) else None
  }

  lemma ValuesAreDigits(s: Chars)
    requires Letters(s)
    ensures Digits(Values(s), 58)
  {
    forall i | 0 <= i < |s|
      ensures 0 <= Values(s)[i] < 58
    {
      DigitLetter(s[i]);
    }
  }

  // ---------------------------------------------------------------- runs

  lemma {:induction false} LeadingIs(s: seq<int>, x: int, n: nat)
    requires n <= |s| && (forall i :: 0 <= i < n ==> s[i] == x) && (n < |s| ==> s[n] != x)
    ensures Leading(s, x) == n
  {
    if n > 0 { LeadingIs(s[1..], x, n - 1); }
  }

  lemma {:induction false} LeadingStops(s: seq<int>, x: int)
    ensures forall i :: 0 <= i < Leading(s, x) ==> s[i] == x
    ensures Leading(s, x) < |s| ==> s[Leading(s, x)] != x
  {
    if s != [] && s[0] == x {
      LeadingStops(s[1..], x);
      assert forall i :: 1 <= i < Leading(s, x) ==> s[i] == s[1..][i - 1];
    }
  }

  lemma {:induction false} SpaceRunIs(s: Chars, n: nat)
    requires n <= |s| && Spaces(s[..n]) && (n < |s| ==> !IsSpace(s[n]))
    ensures SpaceRun(s) == n
  {
    if n > 0 {
      assert s[..n][0] == s[0] && s[1..][..n - 1] == s[..n][1..];
      SpaceRunIs(s[1..], n - 1);
    }
  }

  lemma {:induction false} SpaceRunStops(s: Chars)
    ensures Spaces(s[..SpaceRun(s)]) && (SpaceRun(s) < |s| ==> !IsSpace(s[SpaceRun(s)]))
  {
    if s != [] && IsSpace(s[0]) {
      SpaceRunStops(s[1..]);
      assert forall i :: 1 <= i < SpaceRun(s) ==> s[i] == s[1..][i - 1];
    }
  }

  lemma {:induction false} WordRunIs(s: Chars, n: nat)
    requires n <= |s| && (forall i :: 0 <= i < n ==> !IsSpace(s[i])) && (n < |s| ==> IsSpace(s[n]))
    ensures WordRun(s) == n
  {
    if n > 0 { WordRunIs(s[1..], n - 1); }
  }

  // ---------------------------------------------------------------- round trips

  lemma SpellValues(d: seq<int>)
    requires Digits(d, 58)
    ensures Letters(Spell(d)) && Values(Spell(d)) == d
    ensures forall i :: 0 <= i < |d| ==> !IsSpace(Spell(d)[i])
    ensures d != [] && d[0] != 0 ==> Spell(d)[0] != ONE
  {
    forall i | 0 <= i < |d|
      ensures DigitOf(Spell(d)[i]) == d[i] && !IsSpace(Spell(d)[i]) && (d[i] != 0 ==> Spell(d)[i] != ONE)
    {
      LetterDigit(d[i]);
    }
  }

  lemma ValuesSpell(s: Chars)
    requires Letters(s)
    ensures Spell(Values(s)) == s
  {
    forall i | 0 <= i < |s|
      ensures Spell(Values(s))[i] == s[i]
    {
      DigitLetter(s[i]);
    }
  }

  lemma AppendedRuns(n: nat, x: int, t: seq<int>)
    requires t != [] ==> t[0] != x
    ensures Leading(Repeat(x, n) + t, x) == n
    ensures (Repeat(x, n) + t)[n..] == t
  {
    LeadingIs(Repeat(x, n) + t, x, n);
  }

  /** Decoding an encoding gives back the bytes, leading zeroes included. */
  lemma DecodeEncode(b: seq<int>)
    requires Digits(b, 256)
    ensures DecodeText(EncodeText(b)) == Some(b)
  {
    hide Number, ToBase, Leading, Values, Letters, Spell;
    var z := Leading(b, 0);
    var rest := b[z..];
    LeadingStops(b, 0);
    NumberRange(rest, 256);
    var v := Number(rest, 256);
    ToBaseIs(v, 58);
    var t := Spell(ToBase(v, 58));
    SpellValues(ToBase(v, 58));
    AppendedRuns(z, ONE, t);
    var s := EncodeText(b);
    assert s == Repeat(ONE, z) + t;
    NoSpaces(z, t);
    SpaceRunIs(s, 0);
    assert s[0..] == s;
    WordRunIs(t, |t|);
    assert t[..|t|] == t;
    ToBaseUnique(rest, 256);
    assert b == Repeat(0, z) + rest;
  }

  lemma NoSpaces(z: nat, t: Chars)
    requires forall i :: 0 <= i < |t| ==> !IsSpace(t[i])
    ensures var s := Repeat(ONE, z) + t; s != [] ==> !IsSpace(s[0])
  {
  }

  /** Encoding what was decoded gives the string without its surrounding spaces. */
  lemma EncodeDecode(s: Chars) returns (pre: Chars, post: Chars)
    requires DecodeText(s).Some?
    ensures Digits(DecodeText(s).value, 256)
    ensures s == pre + EncodeText(DecodeText(s).value) + post && Spaces(pre) && Spaces(post)
  {
    hide Number, ToBase, Leading, Values, Letters, Spell, WordRun, SpaceRun, Spaces, EncodeText, Repeat;
    var a := SpaceRun(s);
    var t := s[a..];
    var z := Leading(t, ONE);
    var u := t[z..];
    var w := WordRun(u);
    SpaceRunStops(s);
    LeadingStops(t, ONE);
    pre, post := s[..a], u[w..];
    WordDecoded(z, u[..w]);
    Reassembled(s, a, z, w);
  }

  lemma Reassembled(s: Chars, a: nat, z: nat, w: nat)
    requires a + z + w <= |s| && forall i :: 0 <= i < z ==> s[a..][i] == ONE
    ensures s == s[..a] + (Repeat(ONE, z) + s[a..][z..][..w]) + s[a..][z..][w..]
  {
    assert s == s[..a] + s[a..];
    assert s[a..] == Repeat(ONE, z) + s[a..][z..];
    assert s[a..][z..] == s[a..][z..][..w] + s[a..][z..][w..];
  }

  lemma WordDecoded(z: nat, word: Chars)
    requires Letters(word) && (word != [] ==> word[0] != ONE)
    ensures Digits(Body(z, word), 256) && EncodeText(Body(z, word)) == Repeat(ONE, z) + word
  {
    hide Number, ToBase, Leading;
    ValuesAreDigits(word);
    var d := Values(word);
    if word != [] { DigitLetter(word[0]); }
    NumberRange(d, 58);
    var v := Number(d, 58);
    ToBaseUnique(d, 58);
    ToBaseIs(v, 256);
    var b := ToBase(v, 256);
    AppendedRuns(z, 0, b);
    ValuesSpell(word);
  }

  // ---------------------------------------------------------------- the conversion buffer

  /** Changing one digit changes the number by the difference at that place. */
  lemma {:induction false} NumberUpdate(d: seq<int>, base: nat, k: nat, x: int)
    requires k < |d|
    ensures Number(d[k := x], base) == Number(d, base) + (x - d[k]) * Pow(base, |d| - 1 - k)
  {
    var n := |d| - 1;
    var e := d[k := x];
    if k == n {
      assert e[..n] == d[..n];
    } else {
      assert e[..n] == d[..n][k := x];
      NumberUpdate(d[..n], base, k, x);
      ScaleUp(Number(d[..n], base), x - d[k], Pow(base, n - 1 - k), base);
    }
  }

  lemma ScaleUp(v: int, x: int, p: int, base: int)
    ensures (v + x * p) * base == v * base + x * (base * p)
  {
    assert x * p * base == x * (base * p);
  }

  /** The digits from position `k` on, split at the first of them. */
  lemma {:induction false} NumberFrom(d: seq<int>, base: nat, k: nat)
    requires k < |d|
    ensures Number(d[k..], base) == d[k] * Pow(base, |d| - 1 - k) + Number(d[k + 1..], base)
  {
    var n := |d| - 1;
    if k < n {
      NumberFrom(d[..n], base, k);
      assert d[k..][..n - k] == d[..n][k..] && d[k + 1..][..n - k - 1] == d[..n][k + 1..];
      ScaleUp(Number(d[..n][k + 1..], base), d[k], Pow(base, n - 1 - k), base);
    } else {
      assert d[k..][..0] == [] && d[k + 1..] == [];
    }
  }

  /**
   * A multiply-and-add in progress: the last `i` digits are done and `carry`
   * is due at the next place.
   */
  ghost predicate Carrying(d: seq<int>, was: seq<int>, base: nat, mult: int, add: int, carry: int, i: nat)
    requires |d| == |was| && i <= |d|
  {
    Number(d, base) + carry * Pow(base, i) == Number(was, base) + add + (mult - 1) * Number(was[|was| - i..], base)
  }

  lemma CarryStart(d: seq<int>, base: nat, mult: int, add: int)
    ensures Carrying(d, d, base, mult, add, add, 0)
  {
    assert d[|d|..] == [];
  }

  lemma CarryStep(d: seq<int>, was: seq<int>, base: nat, mult: int, add: int, carry: int, i: nat)
    requires base >= 2 && |d| == |was| && i < |d| && d[|d| - 1 - i] == was[|d| - 1 - i]
    requires Carrying(d, was, base, mult, add, carry, i)
    ensures var k := |d| - 1 - i;
      var n := carry + mult * d[k];
      Carrying(d[k := n % base], was, base, mult, add, n / base, i + 1)
  {
    hide Number;
    var k := |d| - 1 - i;
    var x, p := d[k], Pow(base, i);
    var n := carry + mult * x;
    NumberUpdate(d, base, k, n % base);
    NumberFrom(was, base, k);
    CarryTerms(n, x, base, p, carry, mult, Number(was[k + 1..], base));
    assert Pow(base, i + 1) == base * p;
  }

  lemma CarryTerms(n: int, x: int, base: nat, p: int, carry: int, mult: int, low: int)
    requires base >= 2 && n == carry + mult * x
    ensures (n % base - x) * p + (n / base) * (base * p) == carry * p + (mult - 1) * (x * p)
    ensures (mult - 1) * (x * p + low) == (mult - 1) * (x * p) + (mult - 1) * low
  {
    var q, r := n / base, n % base;
    assert n == q * base + r;
    assert q * (base * p) == (q * base) * p;
    assert (r - x) * p + (q * base) * p == (r - x + q * base) * p;
    assert (n - x) * p == (carry + (mult - 1) * x) * p;
    assert (carry + (mult - 1) * x) * p == carry * p + ((mult - 1) * x) * p;
    assert ((mult - 1) * x) * p == (mult - 1) * (x * p);
  }

  /** Once only zeroes are left above, and the result fits, nothing is carried out. */
  lemma CarryEnd(d: seq<int>, was: seq<int>, base: nat, mult: int, add: int, carry: int, i: nat)
    requires base >= 2 && |d| == |was| && i <= |d| && Digits(d, base) && carry >= 0
    requires Carrying(d, was, base, mult, add, carry, i)
    requires forall k :: 0 <= k < |d| - i ==> was[k] == 0
    requires carry == 0 || i == |d|
    requires mult * Number(was, base) + add < Pow(base, |d|)
    ensures carry == 0 && Number(d, base) == mult * Number(was, base) + add
  {
    hide Number, Pow;
    NumberTrim(was, base, |d| - i);
    NumberRange(d, base);
    assert Number(was, base) + (mult - 1) * Number(was, base) == mult * Number(was, base);
    PowPositive(base, i);
    if carry > 0 { MulMonotone(1, carry, Pow(base, i)); }
  }

  lemma DigitProduct(carry: int, mult: nat, x: int, base: nat)
    requires carry >= 0 && x >= 0 && base >= 2
    ensures carry + mult * x >= 0 && (carry + mult * x) / base >= 0 && 0 <= (carry + mult * x) % base < base
  {
    MulMonotone(0, mult, x);
    Quotient(carry + mult * x, base);
  }

  ghost predicate ZeroAbove(d: seq<int>, length: nat) {
    forall k :: 0 <= k < |d| - length ==> d[k] == 0
  }

  /** Applies `buf = buf * mult + add` from the end of the buffer; the final carry is always zero. */
  method MulAdd(buf: array<int>, length: nat, base: nat, mult: nat, add: nat) returns (newLength: nat)
    requires base >= 2 && length <= buf.Length && Digits(buf[..], base) && ZeroAbove(buf[..], length)
    requires mult * Number(buf[..], base) + add < Pow(base, buf.Length)
    modifies buf
    ensures newLength <= buf.Length && Digits(buf[..], base) && ZeroAbove(buf[..], newLength)
    ensures Number(buf[..], base) == mult * old(Number(buf[..], base)) + add
  {
    hide Number, Pow, Carrying;
    ghost var was := buf[..];
    var size := buf.Length;
    var carry, i := add, 0;
    CarryStart(was, base, mult, add);
    while (carry != 0 || i < length) && i < size
      invariant 0 <= i <= size && carry >= 0
      invariant Digits(buf[..], base) && Carrying(buf[..], was, base, mult, add, carry, i)
      invariant forall k :: 0 <= k < size - i ==> buf[k] == was[k]
      decreases size - i
    {
      var k := size - 1 - i;
      DigitProduct(carry, mult, buf[k], base);
      CarryStep(buf[..], was, base, mult, add, carry, i);
      ghost var d := buf[..];
      carry := carry + mult * buf[k];
      buf[k] := carry % base;
      assert buf[..] == d[k := carry % base];
      carry := carry / base;
      i := i + 1;
    }
    CarryEnd(buf[..], was, base, mult, add, carry, i);
    assert carry == 0;
    newLength := i;
  }

  /** Reads the digits of the buffer without its leading zeroes. */
  method TrimmedDigits(buf: array<int>, length: nat, base: nat) returns (d: seq<int>)
    requires base >= 2 && length <= buf.Length && Digits(buf[..], base) && ZeroAbove(buf[..], length)
    ensures Number(buf[..], base) >= 0 && d == ToBase(Number(buf[..], base), base)
  {
    hide Number, ToBase;
    var it := buf.Length - length;
    while it < buf.Length && buf[it] == 0
      invariant it <= buf.Length && forall k :: 0 <= k < it ==> buf[k] == 0
    {
      it := it + 1;
    }
    d := buf[it..];
    assert d == buf[..][it..];
    NumberTrim(buf[..], base, it);
    ToBaseUnique(d, base);
  }

  /** Feeding digits one at a time keeps the buffer's number within its size. */
  lemma HornerFits(d: seq<int>, from: nat, to: nat, i: nat, size: nat)
    requires from >= 2 && to >= 2 && i < |d| && Digits(d, from) && Pow(from, |d|) <= Pow(to, size)
    ensures Number(d[..i + 1], from) == Number(d[..i], from) * from + d[i]
    ensures Number(d[..i + 1], from) < Pow(to, size)
  {
    assert d[..i + 1][..i] == d[..i];
    NumberRange(d[..i + 1], from);
    PowMonotone(from, i + 1, |d|);
  }

  /** Rewrites a digit string in another base through a buffer of the given size. */
  method Rebase(d: seq<int>, from: nat, to: nat, size: nat) returns (e: seq<int>)
    requires from >= 2 && to >= 2 && Digits(d, from) && Pow(from, |d|) <= Pow(to, size)
    ensures Number(d, from) >= 0 && e == ToBase(Number(d, from), to)
  {
    hide Number, Pow, ToBase;
    var buf := new int[size](i => 0);
    NumberZero(buf[..], to);
    NumberZero(d[..0], from);
    var length: nat := 0;
    for i := 0 to |d|
      invariant length <= size && Digits(buf[..], to) && ZeroAbove(buf[..], length)
      invariant Number(buf[..], to) == Number(d[..i], from)
    {
      HornerFits(d, from, to, i, size);
      length := MulAdd(buf, length, to, from, d[i]);
    }
    assert d[..|d|] == d;
    e := TrimmedDigits(buf, length, to);
  }

  method EncodeBase58(b: seq<int>) returns (str: Chars)
    requires Digits(b, 256)
    ensures str == EncodeText(b)
  {
    hide Number, Pow, ToBase;
    var zeroes := 0;
    while zeroes < |b| && b[zeroes] == 0
      invariant zeroes <= |b| && forall i :: 0 <= i < zeroes ==> b[i] == 0
    {
      zeroes := zeroes + 1;
    }
    LeadingIs(b, 0, zeroes);
    var rest := b[zeroes..];
    EncodeRoom(|rest|);
    var digits := Rebase(rest, 256, 58, |rest| * 138 / 100 + 1);
    str := Repeat(ONE, zeroes);
    for i := 0 to |digits|
      invariant |str| == zeroes + i && str[..zeroes] == Repeat(ONE, zeroes)
      invariant forall k :: 0 <= k < i ==> str[zeroes + k] == LetterOf(digits[k])
    {
      str := str + [LetterOf(digits[i])];
    }
    assert str == Repeat(ONE, zeroes) + Spell(digits);
  }

  method SkipSpaces(s: Chars, start: nat) returns (p: nat)
    requires start <= |s|
    ensures start <= p <= |s| && Spaces(s[start..p]) && (p < |s| ==> !IsSpace(s[p]))
  {
    p := start;
    while p < |s| && IsSpace(s[p])
      invariant start <= p <= |s| && Spaces(s[start..p])
    {
      assert s[start..p + 1] == s[start..p] + [s[p]];
      p := p + 1;
    }
  }

  /** Decodes a string that holds no zero character. */
  method DecodeBase58(s: Chars) returns (r: Option<seq<int>>)
    ensures r == DecodeText(s)
  {
    hide Number, Pow, ToBase, Leading, SpaceRun, WordRun;
    var start := SkipSpaces(s, 0);
    assert s[0..start] == s[..start];
    SpaceRunIs(s, start);
    ghost var t := s[start..];
    var p := start;
    while p < |s| && s[p] == ONE
      invariant start <= p <= |s| && forall i :: 0 <= i < p - start ==> t[i] == ONE
    {
      p := p + 1;
    }
    var zeroes := p - start;
    LeadingIs(t, ONE, zeroes);
    var u := s[p..];
    assert u == t[zeroes..];
    var word, ok := ReadWord(u);
    if !ok { return None; }
    var q := SkipSpaces(u, |word|);
    if q < |u| {
      assert u[|word|..][q - |word|] == u[q];
      return None;
    }
    assert u[|word|..q] == u[|word|..];
    DecodeFits(|word|, |u|);
    var bytes := Rebase(word, 58, 256, |u| * 733 / 1000 + 1);
    r := Some(Repeat(0, zeroes) + bytes);
  }

  lemma DecodeFits(n: nat, m: nat)
    requires n <= m
    ensures Pow(58, n) <= Pow(256, m * 733 / 1000 + 1)
  {
    hide Pow;
    PowMonotone(58, n, m);
    DecodeRoom(m);
  }

  /** Reads digits up to the next space; fails on any other character. */
  method ReadWord(u: Chars) returns (word: seq<int>, ok: bool)
    ensures var w := WordRun(u); ok <==> Letters(u[..w])
    ensures ok ==> |word| == WordRun(u) && word == Values(u[..|word|]) && Digits(word, 58)
  {
    hide WordRun;
    word := [];
    var p := 0;
    while p < |u| && !IsSpace(u[p])
      invariant p <= |u| && forall i :: 0 <= i < p ==> !IsSpace(u[i])
      invariant Letters(u[..p]) && word == Values(u[..p])
    {
      var d := DigitOf(u[p]);
      if d == -1 {
        WordGoesOn(u, p);
        return word, false;
      }
      assert u[..p + 1] == u[..p] + [u[p]];
      word := word + [d];
      p := p + 1;
    }
    WordRunIs(u, p);
    ValuesAreDigits(u[..p]);
    return word, true;
  }

  lemma {:induction false} WordGoesOn(u: Chars, p: nat)
    requires p < |u| && (forall i :: 0 <= i <= p ==> !IsSpace(u[i])) && DigitOf(u[p]) == -1
    ensures p < WordRun(u) && !Letters(u[..WordRun(u)])
  {
    WordReaches(u, p);
    assert u[..WordRun(u)][p] == u[p];
  }

  lemma {:induction false} WordReaches(u: Chars, p: nat)
    requires p < |u| && forall i :: 0 <= i <= p ==> !IsSpace(u[i])
    ensures p < WordRun(u)
  {
    if p > 0 { WordReaches(u[1..], p - 1); }
  }
}
