/**
 * Fixed-width unsigned integers over an array of 32-bit limbs, updated in
 * place. Every operator is proved against integer arithmetic, for any width of
 * at least two limbs.
 */
module ArithUint {
  import opened Powers
  import opened Limbs

  datatype Status = Done | DivisionByZero

  class BaseUint {
    const pn: array<Limb>

    /** The number the limbs stand for. */
    ghost function Number(): int
      reads pn
    {
      Value(pn[..])
    }

    /** Arithmetic wraps at this number. */
    ghost function Modulus(): nat
    {
      Place(pn.Length)
    }

    constructor (width: nat)
      requires width >= 2
      ensures fresh(pn) && pn.Length == width && Number() == 0
    {
      pn := new Limb[width](i => 0);
      new;
      ValueZero(pn[..]);
    }

    constructor Copy(b: BaseUint)
      ensures fresh(pn) && pn[..] == b.pn[..] && pn.Length == b.pn.Length
    {
      pn := new Limb[b.pn.Length](i reads b.pn requires 0 <= i < b.pn.Length => b.pn[i]);
      new;
      AllSame(pn[..], b.pn[..]);
    }

    /** Assigns a 64-bit value. */
    method Assign64(b: nat)
      requires pn.Length >= 2 && b < BASE * BASE
      modifies pn
      ensures Number() == b
    {
      hide Place, Value;
      pn[0] := b % BASE;
      pn[1] := b / BASE;
      for i := 2 to pn.Length
        invariant pn[0] == b % BASE && pn[1] == b / BASE
        invariant forall k :: 2 <= k < i ==> pn[k] == 0
      {
        pn[i] := 0;
      }
      TwoLimbs(pn[..]);
    }

    method GetLow64() returns (low: nat)
      requires pn.Length >= 2
      ensures low == Number() % (BASE * BASE)
    {
      hide Place, Value;
      low := pn[0] + pn[1] * BASE;
      LowTwo(pn[..]);
    }

    method EqualTo(b: nat) returns (eq: bool)
      requires pn.Length >= 2 && b < BASE * BASE
      ensures eq <==> Number() == b
    {
      hide Place, Value;
      for i := pn.Length downto 2
        invariant forall k :: i <= k < pn.Length ==> pn[k] == 0
      {
        if pn[i] != 0 {
          TwoLimbsOnly(pn[..], i);
          return false;
        }
      }
      TwoLimbs(pn[..]);
      eq := pn[1] == b / BASE && pn[0] == b % BASE;
    }

    method CompareTo(b: BaseUint) returns (c: int)
      requires b.pn.Length == pn.Length
      ensures c == if Number() < b.Number() then -1 else if Number() > b.Number() then 1 else 0
    {
      hide Value;
      for i := pn.Length downto 0
        invariant pn[i..] == b.pn[i..]
      {
        assert pn[i + 1..] == pn[..][i + 1..] && b.pn[i + 1..] == b.pn[..][i + 1..];
        if pn[i] < b.pn[i] { TopDecides(pn[..], b.pn[..], i); return -1; }
        if pn[i] > b.pn[i] { TopDecides(b.pn[..], pn[..], i); return 1; }
      }
      assert pn[..] == pn[0..] && b.pn[..] == b.pn[0..];
      return 0;
    }

    /** The position of the highest bit set plus one, or zero for zero. */
    method Bits() returns (n: nat)
      ensures Number() == 0 <==> n == 0
      ensures n > 0 ==> Pow2(n - 1) <= Number() < Pow2(n)
      ensures n <= 32 * pn.Length
    {
      hide Value;
      Pow2Base();
      for pos := pn.Length downto 0
        invariant forall k :: pos <= k < pn.Length ==> pn[k] == 0
      {
        if pn[pos] != 0 {
          n := TopBit(pn[pos]);
          TopLimb(pn[..], pos, n);
          return 32 * pos + n + 1;
        }
      }
      ValueZero(pn[..]);
      return 0;
    }

    /** Adds in place; `b` may be the same number. */
    method AddAssign(b: BaseUint)
      requires b.pn.Length == pn.Length
      modifies pn
      ensures Number() == old(Number() + b.Number()) % Modulus()
    {
      hide Place, Value;
      ghost var a0, b0 := pn[..], b.pn[..];
      ValueAll(b0);
      var carry: int := 0;
      for i := 0 to pn.Length
        invariant 0 <= carry <= 1
        invariant forall k :: i <= k < pn.Length ==> pn[k] == a0[k] && b.pn[k] == b0[k]
        invariant Value(pn[..]) + carry * Place(i) == Value(a0) + Value(b0[..i])
      {
        var n: nat := carry + pn[i] + b.pn[i];
        CarryStep(pn[..], i, n);
        ValueStep(b0, i);
        Distribute(carry, b0[i], Place(i));
        ghost var s: seq<Limb> := pn[..];
        pn[i] := n % BASE;
        carry := n / BASE;
        assert pn[..] == s[i := n % BASE];
      }
      CarryEnd(pn[..], carry, Value(a0) + Value(b0));
    }

    method Increment()
      modifies pn
      ensures Number() == (old(Number()) + 1) % Modulus()
    {
      hide Place, Value;
      ghost var a0 := pn[..];
      var i, more := 0, true;
      PlaceZero();
      while i < pn.Length && more
        invariant 0 <= i <= pn.Length
        invariant Value(pn[..]) + (if more then Place(i) else 0) == Value(a0) + 1
        decreases pn.Length - i, more
      {
        ghost var s: seq<Limb> := pn[..];
        var n: nat := pn[i];
        CarryStep(s, i, n + 1);
        pn[i] := (n + 1) % BASE;
        assert pn[..] == s[i := (n + 1) % BASE];
        if pn[i] == 0 { i := i + 1; } else { more := false; }
      }
      CarryEnd(pn[..], if more then 1 else 0, Value(a0) + 1);
    }

    method Decrement()
      modifies pn
      ensures Number() == (old(Number()) - 1) % Modulus()
    {
      hide Place, Value;
      ghost var a0 := pn[..];
      var i, more := 0, true;
      PlaceZero();
      while i < pn.Length && more
        invariant 0 <= i <= pn.Length
        invariant Value(pn[..]) - (if more then Place(i) else 0) == Value(a0) - 1
        decreases pn.Length - i, more
      {
        ghost var s: seq<Limb> := pn[..];
        ValueUpdate(s, i, (pn[i] - 1) % BASE);
        PlaceStep(i);
        BorrowStep(pn[i], Place(i));
        pn[i] := (pn[i] - 1) % BASE;
        assert pn[..] == s[i := (s[i] - 1) % BASE];
        if pn[i] == BASE - 1 { i := i + 1; } else { more := false; }
      }
      CarryEnd(pn[..], if more then -1 else 0, Value(a0) - 1);
    }

    /** The bitwise complement, in a new number. */
    method Complement() returns (r: BaseUint)
      ensures fresh(r) && fresh(r.pn) && r.pn.Length == pn.Length
      ensures r.Number() == Modulus() - 1 - Number()
    {
      hide Place, Value;
      r := new BaseUint.Copy(this);
      for i := 0 to pn.Length
        invariant fresh(r.pn) && r.pn.Length == pn.Length
        invariant forall k :: 0 <= k < i ==> r.pn[k] == BASE - 1 - pn[k]
      {
        r.pn[i] := BASE - 1 - pn[i];
      }
      ValueComplement(pn[..], r.pn[..]);
    }

    /** The two's complement, in a new number. */
    method Negate() returns (r: BaseUint)
      ensures fresh(r) && fresh(r.pn) && r.pn.Length == pn.Length
      ensures r.Number() == -Number() % Modulus()
    {
      hide Place, Value;
      r := Complement();
      r.Increment();
      SameResidue(Modulus() - Number(), -Number(), 1, Modulus());
    }

    method SubAssign(b: BaseUint)
      requires b.pn.Length == pn.Length
      modifies pn
      ensures Number() == old(Number() - b.Number()) % Modulus()
    {
      hide Place, Value;
      ghost var x, y := Number(), b.Number();
      var r := b.Negate();
      AddAssign(r);
      ResidueOfSum(x, -y, Modulus());
    }

    /** Multiplies by a 32-bit factor. */
    method MulSmall(b32: Limb)
      modifies pn
      ensures Number() == (old(Number()) * b32) % Modulus()
    {
      hide Place, Value;
      ghost var a0 := pn[..];
      ValueAll(a0);
      var carry: int := 0;
      for i := 0 to pn.Length
        invariant 0 <= carry < BASE
        invariant forall k :: i <= k < pn.Length ==> pn[k] == a0[k]
        invariant Value(pn[..]) + carry * Place(i) == Value(a0) + (b32 - 1) * Value(a0[..i])
      {
        ProductFits(carry, 0, b32, pn[i]);
        var n: nat := carry + b32 * pn[i];
        ghost var s: seq<Limb> := pn[..];
        CarryStep(s, i, n);
        ValueStep(a0, i);
        SmallStep(carry, b32, a0[i], Place(i), Value(a0[..i]));
        pn[i] := n % BASE;
        carry := n / BASE;
        assert pn[..] == s[i := n % BASE];
      }
      assert Value(a0) + (b32 - 1) * Value(a0) == Value(a0) * b32;
      CarryEnd(pn[..], carry, Value(a0) * b32);
    }

    /**
     * Multiplies in place. The operand is read after the product has been
     * cleared, so a number multiplied by itself through one object gives zero;
     * the binary operator always works on a copy.
     */
    method MulAssign(b: BaseUint)
      requires pn.Length >= 2 && b.pn.Length == pn.Length
      modifies pn
      ensures Number() == (old(Number()) * (if b.pn == pn then 0 else old(b.Number()))) % Modulus()
    {
      hide Place, Value;
      var a := new BaseUint.Copy(this);
      Assign64(0);
      ghost var a0, b0: seq<Limb> := a.pn[..], b.pn[..];
      ghost var q: int := 0;
      ValueAll(a0);
      for j := 0 to pn.Length
        invariant a.pn[..] == a0 && b.pn[..] == b0 && a.pn != pn
        invariant Value(pn[..]) + q * Modulus() == Value(a0[..j]) * Value(b0)
      {
        ghost var base := Value(pn[..]);
        var carry := AddRow(a.pn[j], j, b, b0);
        RowTail(b0, j);
        ValueStep(a0, j);
        RowSum(base, q, Modulus(), carry, a0[j], Value(b0[..pn.Length - j]), Value(b0[pn.Length - j..]),
               Place(j), Value(b0), Value(a0[..j]));
        q := q + carry + a0[j] * Value(b0[pn.Length - j..]);
      }
      CarryEnd(pn[..], q, Value(a0) * Value(b0));
    }

    /** Adds one row `x * b`, shifted up by `j` limbs, dropping what leaves the top. */
    method AddRow(x: Limb, j: nat, b: BaseUint, ghost b0: seq<Limb>) returns (carry: int)
      requires j < pn.Length == b.pn.Length && b.pn[..] == b0
      requires b.pn == pn ==> Number() == 0
      modifies pn
      ensures b.pn[..] == b0
      ensures Value(pn[..]) + carry * Modulus() == old(Value(pn[..])) + x * Value(b0[..pn.Length - j]) * Place(j)
    {
      hide Place, Value, RowInv, Digit;
      ghost var base := Value(pn[..]);
      if b.pn == pn { ZeroLimbs(b0); }
      carry := 0;
      RowStart(pn[..], base, x, b0, j);
      for i := 0 to pn.Length - j
        invariant 0 <= carry < BASE && b.pn[..] == b0
        invariant b.pn == pn ==> carry == 0
        invariant RowInv(pn[..], carry, base, x, b0, i, j)
      {
        var n: nat := Digit(carry, pn[i + j], x, b.pn[i]);
        ghost var s: seq<Limb> := pn[..];
        RowAdvance(s, carry, base, x, b0, i, j);
        pn[i + j] := n % BASE;
        carry := n / BASE;
        assert pn[..] == s[i + j := n % BASE];
      }
      RowEnd(pn[..], carry, base, x, b0, j);
    }

    /** Ors bits into a limb that has none of them set. */
    method OrInto(i: nat, y: Limb, ghost e: nat)
      requires i < pn.Length && pn[i] + y < BASE
      requires (pn[i] < Pow2(e) && y % Pow2(e) == 0) || (y < Pow2(e) && pn[i] % Pow2(e) == 0)
      modifies pn
      ensures pn[..] == old(pn[..])[i := old(pn[i]) + y]
      ensures Value(pn[..]) == old(Value(pn[..])) + y * Place(i)
    {
      hide Place, Value;
      if pn[i] < Pow2(e) && y % Pow2(e) == 0 {
        OrDisjoint(pn[i], y, e);
      } else {
        OrDisjoint(y, pn[i], e);
        OrSymmetric(pn[i], y);
      }
      ghost var s: seq<Limb> := pn[..];
      pn[i] := Or(pn[i], y);
      ValueUpdate(s, i, pn[i]);
    }

    method ShiftLeft(shift: nat)
      requires pn.Length >= 2
      modifies pn
      ensures Number() == (old(Number()) * Pow2(shift)) % Modulus()
    {
      hide Place, Value, Pow2, Shl, Shr, Or, LeftInv, LeftAdded, ShiftedOut, CleanBelow;
      var a := new BaseUint.Copy(this);
      ghost var a0: seq<Limb> := a.pn[..];
      Assign64(0);
      ZeroLimbs(pn[..]);
      var k, s := shift / 32, shift % 32;
      ghost var q: int := 0;
      LeftStart(pn[..], a0, k, s);
      for i := 0 to pn.Length
        invariant a.pn[..] == a0 && a.pn != pn
        invariant forall m :: i + k < m < pn.Length ==> pn[m] == 0
        invariant i + k < pn.Length ==> pn[i + k] < Pow2(s)
        invariant LeftInv(pn[..], a0, i, k, s, q)
      {
        ghost var before: seq<Limb> := pn[..];
        Halves(a0[i], s);
        NoBits(s);
        AddedIs(a0[i], s, i + k, pn.Length);
        if i + k + 1 < pn.Length && s != 0 {
          OrInto(i + k + 1, Shr(a.pn[i], 32 - s), 0);
        }
        if i + k < pn.Length {
          OrInto(i + k, Shl(a.pn[i], s), s);
        }
        LeftAdvance(before, pn[..], a0, i, k, s, q);
        q := q + ShiftedOut(a0[i], s, i + k, pn.Length);
      }
      LeftEnd(pn[..], a0, k, s, q, shift);
    }

    method ShiftRight(shift: nat)
      requires pn.Length >= 2
      modifies pn
      ensures Number() == old(Number()) / Pow2(shift)
    {
      hide Place, Value, Pow2, Shl, Shr, Or, RightInv, RightAdded, CleanBelow;
      var a := new BaseUint.Copy(this);
      ghost var a0: seq<Limb> := a.pn[..];
      Assign64(0);
      ZeroLimbs(pn[..]);
      var k, s := shift / 32, shift % 32;
      RightStart(pn[..], a0, k, s);
      for i := 0 to pn.Length
        invariant a.pn[..] == a0 && a.pn != pn
        invariant forall m :: 0 <= m < pn.Length && m + k >= i ==> pn[m] == 0
        invariant k < i ==> pn[i - k - 1] < Pow2(32 - s)
        invariant RightInv(pn[..], a0, i, k, s)
      {
        ghost var before: seq<Limb> := pn[..];
        Halves(a0[i], 32 - s);
        NoBits(s);
        RightAddedIs(a0[i], s, i, k);
        if i > k && s != 0 {
          OrInto(i - k - 1, Shl(a.pn[i], 32 - s), 32 - s);
        }
        if i >= k {
          OrInto(i - k, Shr(a.pn[i], s), 0);
        }
        RightAdvance(before, pn[..], a0, i, k, s);
      }
      RightEnd(pn[..], a0, k, s, shift);
    }

    /** Decides one bit of the quotient. */
    method QuotientBit(num: BaseUint, div: BaseUint, shift: nat, ghost d0: int, ghost n0: int)
      requires shift < 32 * pn.Length && num.pn != pn && div.pn != num.pn && div.pn != pn
      requires div.pn.Length == num.pn.Length == pn.Length
      requires DivInv(Number(), num.Number(), d0, n0, shift + 1) && div.Number() == Scaled(d0, shift)
      requires CleanBelow(pn[..], shift + 1)
      modifies pn, num.pn
      ensures DivInv(Number(), num.Number(), d0, n0, shift) && CleanBelow(pn[..], shift)
    {
      hide Place, Value, Pow2, Scaled, DivInv, CleanBelow;
      var c := num.CompareTo(div);
      if c >= 0 {
        DivSubtract(Number(), num.Number(), d0, n0, shift);
        Reduced(num.pn[..], div.pn[..]);
        num.SubAssign(div);
        BitPlace(shift);
        CleanBit(pn[..], shift);
        ghost var was: seq<Limb> := pn[..];
        OrInto(shift / 32, Pow2(shift % 32), shift % 32 + 1);
        CleanAfter(was, shift, pn[..]);
      } else {
        DivSkip(Number(), num.Number(), d0, n0, shift);
        CleanLess(pn[..], shift);
      }
    }

    /**
     * Long division, one bit of the quotient at a time. The quotient is
     * cleared before a zero divisor is noticed.
     */
    method DivAssign(b: BaseUint) returns (status: Status, ghost remainder: int)
      requires pn.Length >= 2 && b.pn.Length == pn.Length
      modifies pn
      ensures status == DivisionByZero <==> old(b.Number()) == 0
      ensures status == DivisionByZero ==> Number() == 0
      ensures status == Done ==>
        old(Number()) == Number() * old(b.Number()) + remainder && 0 <= remainder < old(b.Number())
      ensures status == Done ==> Number() == old(Number()) / old(b.Number())
    {
      hide Place, Value, Pow2, Scaled, DivInv, CleanBelow;
      var div := new BaseUint.Copy(b);
      var num := new BaseUint.Copy(this);
      ghost var n0, d0 := num.Number(), div.Number();
      ValueBound(num.pn[..]);
      ValueBound(div.pn[..]);
      Assign64(0);
      var numBits := num.Bits();
      var divBits := div.Bits();
      remainder := n0;
      if divBits == 0 { return DivisionByZero, remainder; }
      status := Done;
      if divBits > numBits {
        NumBelowDiv(n0, d0, numBits, divBits);
        return;
      }
      var shift: int := numBits - divBits;
      Aligned(n0, d0, numBits, divBits, pn.Length);
      div.ShiftLeft(shift);
      ZeroLimbs(pn[..]);
      DivBegin(d0, n0, shift + 1);
      while shift >= 0
        invariant -1 <= shift < 32 * pn.Length
        invariant div.pn != pn && num.pn != pn && div.pn != num.pn && fresh(div.pn) && fresh(num.pn)
        invariant div.pn.Length == num.pn.Length == pn.Length
        invariant DivInv(Number(), num.Number(), d0, n0, shift + 1)
        invariant shift >= 0 ==> div.Number() == Scaled(d0, shift)
        invariant CleanBelow(pn[..], shift + 1)
        decreases shift
      {
        QuotientBit(num, div, shift, d0, n0);
        div.ShiftRight(1);
        HalfShift(d0, shift);
        shift := shift - 1;
      }
      remainder := num.Number();
      DivDone(Number(), remainder, d0, n0);
    }
  }

  ghost function Scaled(d: int, t: nat): int {
    d * Pow2(t)
  }

  /** Long division with the bits from `t` up decided. */
  ghost predicate DivInv(quotient: int, num: int, d: int, n: int, t: nat) {
    quotient * d + num == n && 0 <= num < Scaled(d, t)
  }

  lemma DivSubtract(quotient: int, num: int, d: int, n: int, t: nat)
    requires DivInv(quotient, num, d, n, t + 1) && num >= Scaled(d, t)
    ensures DivInv(quotient + Pow2(t), num - Scaled(d, t), d, n, t)
  {
    Distribute(quotient, Pow2(t), d);
    assert d * Pow2(t + 1) == 2 * (d * Pow2(t));
  }

  lemma DivSkip(quotient: int, num: int, d: int, n: int, t: nat)
    requires DivInv(quotient, num, d, n, t + 1) && num < Scaled(d, t)
    ensures DivInv(quotient, num, d, n, t)
  {
  }

  lemma DivDone(quotient: int, num: int, d: int, n: int)
    requires DivInv(quotient, num, d, n, 0)
    ensures n == quotient * d + num && 0 <= num < d && quotient == n / d
  {
    DivMod(n, d, quotient, num);
  }

  lemma DivBegin(d: int, n: int, t: nat)
    requires 0 <= n < d * Pow2(t)
    ensures DivInv(0, n, d, n, t)
  {
  }

  lemma Reduced(s: seq<Limb>, t: seq<Limb>)
    requires |s| == |t| && Value(s) >= Value(t)
    ensures (Value(s) - Value(t)) % Place(|s|) == Value(s) - Value(t)
  {
    hide Place, Value;
    ValueBound(s);
    ValueBound(t);
    DivMod(Value(s) - Value(t), Place(|s|), 0, Value(s) - Value(t));
  }

  /** No bit below position `t` is set. */
  ghost predicate CleanBelow(s: seq<Limb>, t: nat) {
    && (forall m :: 0 <= m < |s| && m < t / 32 ==> s[m] == 0)
    && (t / 32 < |s| ==> s[t / 32] % Pow2(t % 32) == 0)
  }

  lemma ZeroLimbs(s: seq<Limb>)
    requires Value(s) == 0
    ensures forall i :: 0 <= i < |s| ==> s[i] == 0
    ensures forall t: nat :: CleanBelow(s, t)
  {
    forall i | 0 <= i < |s|
      ensures s[i] == 0
    {
      if s[i] != 0 { ValuePositive(s, i); }
    }
    forall t: nat
      ensures CleanBelow(s, t)
    {
      if t / 32 < |s| { DivMod(0, Pow2(t % 32), 0, 0); }
    }
  }

  /** One column of the schoolbook product: at most 64 bits. */
  function Digit(carry: int, y: Limb, x: Limb, z: Limb): (n: nat)
    requires 0 <= carry < BASE
    ensures 0 <= n / BASE < BASE
  {
    ProductFits(carry, y, x, z);
    carry + y + x * z
  }

  ghost predicate RowInv(s: seq<Limb>, carry: int, base: int, x: Limb, b: seq<Limb>, i: nat, j: nat)
    requires i <= |b|
  {
    Value(s) + carry * Place(i + j) == base + x * Value(b[..i]) * Place(j)
  }

  lemma RowStart(s: seq<Limb>, base: int, x: Limb, b: seq<Limb>, j: nat)
    requires base == Value(s)
    ensures RowInv(s, 0, base, x, b, 0, j)
  {
    hide Place, Value;
    ValueAll(b);
  }

  lemma RowAdvance(s: seq<Limb>, carry: int, base: int, x: Limb, b: seq<Limb>, i: nat, j: nat)
    requires i < |b| && i + j < |s| && 0 <= carry < BASE && RowInv(s, carry, base, x, b, i, j)
    ensures
      var digit := Digit(carry, s[i + j], x, b[i]);
      RowInv(s[i + j := digit % BASE], digit / BASE, base, x, b, i + 1, j)
    ensures carry == 0 && s[i + j] == 0 && b[i] == 0 ==> Digit(carry, s[i + j], x, b[i]) == 0
  {
    hide Place, Value;
    CarryStep(s, i + j, Digit(carry, s[i + j], x, b[i]));
    ValueStep(b, i);
    PlaceAdd(i, j);
    RowStep(carry, x, b[i], Place(i), Place(j), Value(b[..i]));
  }

  lemma RowEnd(s: seq<Limb>, carry: int, base: int, x: Limb, b: seq<Limb>, j: nat)
    requires j < |b| && RowInv(s, carry, base, x, b, |b| - j, j)
    ensures Value(s) + carry * Place(|b|) == base + x * Value(b[..|b| - j]) * Place(j)
  {
  }

  lemma RowStep(carry: int, x: int, y: int, pi: int, pj: int, v: int)
    ensures (carry + x * y) * (pi * pj) == carry * (pi * pj) + x * (y * pi) * pj
    ensures x * (v + y * pi) * pj == x * v * pj + x * (y * pi) * pj
  {
    Distribute(carry, x * y, pi * pj);
    assert (x * y) * (pi * pj) == x * (y * pi) * pj;
    assert x * (v + y * pi) == x * v + x * (y * pi);
    Distribute(x * v, x * (y * pi), pj);
  }

  lemma RowTail(b: seq<Limb>, j: nat)
    requires j < |b|
    ensures Value(b) * Place(j) == Value(b[..|b| - j]) * Place(j) + Place(|b|) * Value(b[|b| - j..])
  {
    hide Place, Value;
    var n := |b| - j;
    ValueSplit(b, n);
    PlaceAdd(n, j);
    Distribute(Value(b[..n]), Place(n) * Value(b[n..]), Place(j));
    assert Place(n) * Value(b[n..]) * Place(j) == (Place(n) * Place(j)) * Value(b[n..]);
  }

  lemma RowSum(base: int, q: int, m: int, carry: int, x: int, low: int, rest: int, pj: int, vb: int, va: int)
    requires base + q * m == va * vb
    requires vb * pj == low * pj + m * rest
    ensures base + x * low * pj - carry * m + (q + carry + x * rest) * m == (va + x * pj) * vb
  {
    assert (q + carry + x * rest) * m == q * m + carry * m + x * (m * rest) by {
      Distribute(q + carry, x * rest, m);
      Distribute(q, carry, m);
      assert (x * rest) * m == x * (m * rest);
    }
    assert x * (vb * pj) == x * (low * pj) + x * (m * rest);
    assert x * low * pj == x * (low * pj);
    Distribute(va, x * pj, vb);
    assert (x * pj) * vb == x * (vb * pj);
  }

  lemma NoBits(s: nat)
    ensures Pow2(0) == 1 && Pow2(s) >= 1
    ensures s == 0 ==> Pow2(s) == 1
    ensures forall y: Limb :: y % Pow2(0) == 0
  {
  }

  /** How many moduli leave the top when limb `x` is shifted to place `at`. */
  ghost function ShiftedOut(x: Limb, s: nat, at: nat, width: nat): int
    requires s < 32
  {
    if at >= width then x * Pow2(s) * Place(at - width)
    else if at + 1 == width then Shr(x, 32 - s)
    else 0
  }

  /** What limb `x` contributes below the top when shifted to place `at`. */
  ghost function LeftAdded(x: Limb, s: nat, at: nat, width: nat): int
    requires s < 32
  {
    (if at < width then Shl(x, s) * Place(at) else 0) + (if at + 1 < width then Shr(x, 32 - s) * Place(at + 1) else 0)
  }

  lemma AddedIs(x: Limb, s: nat, at: nat, width: nat)
    requires s < 32
    ensures at >= width ==> LeftAdded(x, s, at, width) == 0
    ensures at + 1 == width || (at < width && s == 0) ==> LeftAdded(x, s, at, width) == Shl(x, s) * Place(at)
    ensures at + 1 < width ==> LeftAdded(x, s, at, width) == Shl(x, s) * Place(at) + Shr(x, 32 - s) * Place(at + 1)
  {
    hide Place, Pow2, Shl, Shr;
    Halves(x, s);
    NoBits(s);
  }

  /** Contribution and overflow together are the shifted limb. */
  lemma ShiftedWhole(x: Limb, s: nat, at: nat, width: nat)
    requires s < 32
    ensures LeftAdded(x, s, at, width) + ShiftedOut(x, s, at, width) * Place(width) == x * Pow2(s) * Place(at)
  {
    hide Place, Pow2, Shl, Shr;
    var p, lo, hi := Pow2(s), Shl(x, s), Shr(x, 32 - s);
    Halves(x, s);
    if at >= width {
      PlaceAdd(at - width, width);
      Associate(x * p, Place(at - width), Place(width));
    } else {
      PlaceStep(at);
      Distribute(lo, hi * BASE, Place(at));
      Swap(hi, BASE, Place(at));
    }
  }

  lemma Associate(a: int, b: int, c: int)
    ensures a * (b * c) == a * b * c
  {
  }

  lemma Swap(a: int, b: int, c: int)
    ensures a * b * c == a * (c * b)
  {
  }

  ghost predicate LeftInv(s: seq<Limb>, a: seq<Limb>, i: nat, k: nat, sh: nat, q: int)
    requires i <= |a|
  {
    Value(s) + q * Place(|s|) == Value(a[..i]) * Pow2(sh) * Place(k)
  }

  lemma LeftStart(s: seq<Limb>, a: seq<Limb>, k: nat, sh: nat)
    requires Value(s) == 0
    ensures LeftInv(s, a, 0, k, sh, 0)
  {
    hide Place, Value, Pow2;
    ValueAll(a);
  }

  lemma LeftAdvance(s: seq<Limb>, t: seq<Limb>, a: seq<Limb>, i: nat, k: nat, sh: nat, q: int)
    requires i < |a| && |s| == |t| && sh < 32 && LeftInv(s, a, i, k, sh, q)
    requires Value(t) == Value(s) + LeftAdded(a[i], sh, i + k, |s|)
    ensures LeftInv(t, a, i + 1, k, sh, q + ShiftedOut(a[i], sh, i + k, |s|))
  {
    hide Place, Value, Pow2, LeftAdded, ShiftedOut;
    ValueStep(a, i);
    PlaceAdd(i, k);
    ShiftedWhole(a[i], sh, i + k, |s|);
    Distribute(q, ShiftedOut(a[i], sh, i + k, |s|), Place(|s|));
    LeftTerms(Value(a[..i]), a[i], Place(i), Pow2(sh), Place(k));
  }

  lemma LeftTerms(v: int, x: int, pi: int, p: int, pk: int)
    ensures (v + x * pi) * p * pk == v * p * pk + x * p * (pi * pk)
  {
    Distribute(v, x * pi, p);
    Distribute(v * p, x * pi * p, pk);
    assert x * pi * p == x * p * pi;
    Associate(x * p, pi, pk);
  }

  lemma LeftEnd(s: seq<Limb>, a: seq<Limb>, k: nat, sh: nat, q: int, shift: nat)
    requires LeftInv(s, a, |a|, k, sh, q) && shift == 32 * k + sh
    ensures Value(s) == (Value(a) * Pow2(shift)) % Place(|s|)
  {
    hide Place, Value, Pow2;
    ValueAll(a);
    PlaceIs(k);
    Pow2Add(sh, 32 * k);
    Associate(Value(a), Pow2(sh), Place(k));
    CarryEnd(s, q, Value(a) * Pow2(shift));
  }

  lemma PlaceIs(k: nat)
    ensures Place(k) == Pow2(32 * k)
  {
  }

  // ---------------------------------------------------------------- right shift

  /** What limb `x`, read at `i`, contributes when shifted down by `k` limbs and `s` bits. */
  ghost function RightAdded(x: Limb, s: nat, i: nat, k: nat): int
    requires s < 32
  {
    if i < k then 0
    else (if i > k && s != 0 then Shl(x, 32 - s) * Place(i - k - 1) else 0) + Shr(x, s) * Place(i - k)
  }

  lemma RightAddedIs(x: Limb, s: nat, i: nat, k: nat)
    requires s < 32
    ensures i < k ==> RightAdded(x, s, i, k) == 0
    ensures i == k || (i > k && s == 0) ==> RightAdded(x, s, i, k) == Shr(x, s) * Place(i - k)
    ensures i > k && s != 0 ==> RightAdded(x, s, i, k) == Shl(x, 32 - s) * Place(i - k - 1) + Shr(x, s) * Place(i - k)
  {
    hide Place, Pow2, Shl, Shr;
  }

  ghost predicate RightInv(s: seq<Limb>, a: seq<Limb>, i: nat, k: nat, sh: nat)
    requires i <= |a|
  {
    if i <= k then Value(s) == 0 else Value(s) * Pow2(sh) + a[k] % Pow2(sh) == Value(a[k..i])
  }

  lemma RightStart(s: seq<Limb>, a: seq<Limb>, k: nat, sh: nat)
    requires Value(s) == 0
    ensures RightInv(s, a, 0, k, sh)
  {
  }

  lemma RightAdvance(s: seq<Limb>, t: seq<Limb>, a: seq<Limb>, i: nat, k: nat, sh: nat)
    requires i < |a| && |s| == |t| && sh < 32 && RightInv(s, a, i, k, sh)
    requires Value(t) == Value(s) + RightAdded(a[i], sh, i, k)
    ensures RightInv(t, a, i + 1, k, sh)
  {
    hide Place, Value, Pow2, RightAdded, Shr, Shl;
    if i == k {
      RightFirst(a, i, sh);
    } else if i > k {
      RightSlice(a, i, k);
      RightWhole(a[i], sh, i, k);
      RightTotal(Value(s), RightAdded(a[i], sh, i, k), Pow2(sh), a[i] * Place(i - k));
    } else {
      RightAddedIs(a[i], sh, i, k);
    }
  }

  lemma RightSlice(a: seq<Limb>, i: nat, k: nat)
    requires k <= i < |a|
    ensures Value(a[k..i + 1]) == Value(a[k..i]) + a[i] * Place(i - k)
  {
    hide Place, Value;
    ValueStep(a[k..], i - k);
    assert a[k..][..i - k] == a[k..i] && a[k..][..i - k + 1] == a[k..i + 1];
  }

  lemma RightFirst(a: seq<Limb>, i: nat, sh: nat)
    requires i < |a| && sh < 32
    ensures RightAdded(a[i], sh, i, i) * Pow2(sh) + a[i] % Pow2(sh) == Value(a[i..i + 1])
  {
    hide Place, Value, Pow2, RightAdded, Shr, Shl;
    RightAddedIs(a[i], sh, i, i);
    RightSlice(a, i, i);
    FirstPlaces();
    ValueAll(a);
    assert a[i..i] == a[..0];
    ShrWhole(a[i], sh);
  }

  lemma RightTotal(v: int, added: int, p: int, x: int)
    requires added * p == x
    ensures (v + added) * p == v * p + x
  {
  }

  lemma ShrWhole(x: Limb, s: nat)
    ensures x == Shr(x, s) * Pow2(s) + x % Pow2(s)
  {
  }

  /** The two halves of a limb add up to the limb, scaled. */
  lemma RightWhole(x: Limb, s: nat, i: nat, k: nat)
    requires s < 32 && i > k
    ensures RightAdded(x, s, i, k) * Pow2(s) == x * Place(i - k)
  {
    hide Place, Pow2, Shr, Shl, RightAdded;
    var d := i - k;
    RightAddedIs(x, s, i, k);
    NoBits(s);
    if s == 0 {
      ShrZero(x);
    } else {
      var lo, hi, p, w := Shl(x, 32 - s), Shr(x, s), Pow2(s), Place(d - 1);
      Halves(x, 32 - s);
      PlaceStep(d - 1);
      Pow2Base();
      Pow2Add(32 - s, s);
      RightTerms(lo, hi, p, Pow2(32 - s), w, x);
    }
  }

  lemma ShrZero(x: Limb)
    ensures Shr(x, 0) == x
  {
  }

  lemma RightTerms(lo: int, hi: int, p: int, u: int, w: int, x: int)
    requires u * p == BASE && x * u == lo + hi * BASE
    ensures (lo * w + hi * (w * BASE)) * p == x * (w * BASE)
  {
    Swap(hi, BASE, w);
    Distribute(lo, hi * BASE, w);
    assert x * u * w * p == x * (w * (u * p)) by {
      assert x * u * w * p == x * (u * w * p);
      assert u * w * p == w * (u * p);
    }
  }

  lemma RightEnd(s: seq<Limb>, a: seq<Limb>, k: nat, sh: nat, shift: nat)
    requires RightInv(s, a, |a|, k, sh) && shift == 32 * k + sh
    ensures Value(s) == Value(a) / Pow2(shift)
  {
    hide Place, Value, Pow2;
    ValueBound(a);
    PlaceIs(|a|);
    if |a| <= k {
      Pow2Monotone(32 * |a|, shift);
      DivMod(Value(a), Pow2(shift), 0, Value(a));
    } else {
      assert a[k..|a|] == a[k..];
      PlaceIs(k);
      Pow2Add(32 * k, sh);
      ValueSplit(a, k);
      ValueBound(a[..k]);
      FloorWhole(Value(a), Value(a[..k]), Place(k), Value(a[k..]), Value(s), Pow2(sh), a[k] % Pow2(sh));
    }
  }

  lemma FloorWhole(total: int, low: int, pk: nat, rest: int, v: int, p: nat, r: int)
    requires 0 <= low < pk && 0 <= r < p && total == low + pk * rest && rest == v * p + r
    ensures pk * p > 0 && total / (pk * p) == v
  {
    FloorTwice(low, pk, v, p, r);
  }

  lemma FloorTwice(low: int, pk: nat, v: int, p: nat, r: int)
    requires 0 <= low < pk && 0 <= r < p
    ensures pk * p > 0 && (low + pk * (v * p + r)) / (pk * p) == v
  {
    MulMonotone(r, p - 1, pk);
    MulMonotone(0, r, pk);
    MulMonotone(1, p, pk);
    assert pk * (v * p + r) == v * (pk * p) + pk * r by {
      assert pk * (v * p + r) == pk * (v * p) + pk * r;
      assert pk * (v * p) == v * (pk * p);
    }
    assert (p - 1) * pk == pk * p - pk;
    DivMod(low + pk * (v * p + r), pk * p, v, low + pk * r);
  }

  lemma NumBelowDiv(n: int, d: int, nb: nat, db: nat)
    requires n == 0 <==> nb == 0
    requires nb > 0 ==> Pow2(nb - 1) <= n < Pow2(nb)
    requires db > nb && Pow2(db - 1) <= d
    ensures n < d && n / d == 0
  {
    if nb > 0 { Pow2Monotone(nb, db - 1); }
    if n >= 0 { DivMod(n, d, 0, n); }
  }

  lemma Aligned(n: int, d: int, nb: nat, db: nat, width: nat)
    requires 0 < db <= nb <= 32 * width
    requires 0 <= n < Pow2(nb) && Pow2(db - 1) <= d < Pow2(db)
    ensures n < d * Pow2(nb - db + 1)
    ensures Scaled(d, nb - db) == (d * Pow2(nb - db)) % Place(width)
  {
    hide Pow2, Place;
    PlaceIs(width);
    Pow2Add(db - 1, nb - db + 1);
    Pow2Add(db, nb - db);
    MulMonotone(Pow2(db - 1), d, Pow2(nb - db + 1));
    MulMonotone(d, Pow2(db) - 1, Pow2(nb - db));
    MulMonotone(0, d, Pow2(nb - db));
    Pow2Monotone(nb, 32 * width);
    var v := d * Pow2(nb - db);
    assert (Pow2(db) - 1) * Pow2(nb - db) == Pow2(db) * Pow2(nb - db) - Pow2(nb - db);
    DivMod(v, Place(width), 0, v);
  }

  lemma BitPlace(t: nat)
    ensures Pow2(t % 32) * Place(t / 32) == Pow2(t)
    ensures Pow2(t % 32) < BASE && Pow2(t % 32) < Pow2(t % 32 + 1)
  {
    Pow2Add(t % 32, 32 * (t / 32));
    Pow2Base();
    Pow2Monotone(t % 32, 31);
  }

  /** A multiple of `2p` below the base leaves room for `p`. */
  lemma CleanBit(s: seq<Limb>, t: nat)
    requires t / 32 < |s| && CleanBelow(s, t + 1)
    ensures s[t / 32] % Pow2(t % 32 + 1) == 0
    ensures s[t / 32] + Pow2(t % 32) < BASE
  {
    var x, r := s[t / 32], t % 32;
    Pow2Base();
    if r == 31 {
      assert (t + 1) / 32 == t / 32 + 1;
      Pow2Monotone(31, 31);
      DivMod(0, Pow2(32), 0, 0);
    } else {
      assert (t + 1) / 32 == t / 32 && (t + 1) % 32 == r + 1;
    }
    Pow2Add(r + 1, 31 - r);
    RoomForHalf(x, Pow2(r + 1), Pow2(31 - r));
  }

  lemma RoomForHalf(x: Limb, p: nat, q: nat)
    requires p > 1 && p * q == BASE && x % p == 0
    ensures x + p / 2 < BASE
  {
    var d := x / p;
    assert x == d * p;
    if d >= q { MulMonotone(q, d, p); }
    MulMonotone(d, q - 1, p);
  }

  lemma CleanAfter(s: seq<Limb>, t: nat, u: seq<Limb>)
    requires t / 32 < |s| && CleanBelow(s, t + 1)
    requires s[t / 32] + Pow2(t % 32) < BASE
    requires u == s[t / 32 := s[t / 32] + Pow2(t % 32)]
    ensures CleanBelow(u, t)
  {
    CleanLess(s, t);
    AddMultiple(s[t / 32], Pow2(t % 32));
  }

  lemma AddMultiple(x: nat, p: nat)
    requires p > 0 && x % p == 0
    ensures (x + p) % p == 0
  {
    var d := x / p;
    assert x == d * p;
    DivMod(x + p, p, d + 1, 0);
  }

  lemma CleanLess(s: seq<Limb>, t: nat)
    requires CleanBelow(s, t + 1)
    ensures CleanBelow(s, t)
  {
    if t / 32 < |s| {
      CleanBitMultiple(s, t);
    }
  }

  lemma CleanBitMultiple(s: seq<Limb>, t: nat)
    requires t / 32 < |s| && CleanBelow(s, t + 1)
    ensures s[t / 32] % Pow2(t % 32) == 0
  {
    var r := t % 32;
    if r == 31 {
      assert (t + 1) / 32 == t / 32 + 1;
      DivMod(0, Pow2(r), 0, 0);
    } else {
      assert (t + 1) / 32 == t / 32 && (t + 1) % 32 == r + 1;
      HalfMultiple(s[t / 32], Pow2(r));
    }
  }

  lemma HalfMultiple(x: nat, p: nat)
    requires p > 0 && x % (2 * p) == 0
    ensures x % p == 0
  {
    var d := x / (2 * p);
    assert x == d * (2 * p);
    assert d * (2 * p) == (2 * d) * p;
    DivMod(x, p, 2 * d, 0);
  }

  lemma HalfShift(d: int, shift: nat)
    ensures shift > 0 ==> Scaled(d, shift) / Pow2(1) == Scaled(d, shift - 1)
  {
    if shift > 0 {
      assert d * Pow2(shift) == (d * Pow2(shift - 1)) * 2;
    }
  }

  // ---------------------------------------------------------------- facts behind the loops

  lemma TwoLimbs(s: seq<Limb>)
    requires |s| >= 2 && forall k :: 2 <= k < |s| ==> s[k] == 0
    ensures Value(s) == s[0] + s[1] * BASE
  {
    hide Place;
    LowTwo(s);
    ValueSplit(s, 2);
    ValueZero(s[2..]);
  }

  lemma LowTwo(s: seq<Limb>)
    requires |s| >= 2
    ensures Value(s[..2]) == s[0] + s[1] * BASE
    ensures Value(s) % (BASE * BASE) == s[0] + s[1] * BASE
  {
    hide Place, Value;
    FirstPlaces();
    ValueAll(s);
    ValueStep(s, 0);
    ValueStep(s, 1);
    ValueSplit(s, 2);
    ValueBound(s[..2]);
    DivMod(Value(s), Place(2), Value(s[2..]), Value(s[..2]));
  }

  lemma TwoLimbsOnly(s: seq<Limb>, i: nat)
    requires 2 <= i < |s| && s[i] != 0
    ensures Value(s) >= BASE * BASE
  {
    hide Place, Value;
    FirstPlaces();
    ValueSplit(s, 2);
    ValueBound(s[..2]);
    ValuePositive(s[2..], i - 2);
    MulMonotone(1, Value(s[2..]), Place(2));
  }

  /** Finds the top bit of a non-zero limb by testing bits from the top. */
  method TopBit(x: Limb) returns (n: nat)
    requires x != 0
    ensures n < 32 && Pow2(n) <= x < Pow2(n + 1)
  {
    Pow2Base();
    n := 31;
    while n > 0
      invariant n < 32 && x < Pow2(n + 1)
    {
      if (x / Pow2(n)) % 2 == 1 { BitSet(x, Pow2(n)); return; }
      BitClear(x, Pow2(n));
      n := n - 1;
    }
  }

  lemma BitSet(x: nat, p: nat)
    requires p > 0 && (x / p) % 2 == 1
    ensures p <= x
  {
    if x < p { DivMod(x, p, 0, x); }
  }

  lemma BitClear(x: nat, p: nat)
    requires p > 0 && x < 2 * p && (x / p) % 2 == 0
    ensures x < p
  {
    if x >= p { DivMod(x, p, 1, x - p); }
  }

  lemma Distribute(a: int, b: int, p: int)
    ensures (a + b) * p == a * p + b * p
  {
  }

  lemma BorrowStep(x: Limb, p: nat)
    ensures x > 0 ==> (x - 1) % BASE == x - 1 && ((x - 1) % BASE - x) * p == 0 - p
    ensures x == 0 ==> (x - 1) % BASE == BASE - 1 && ((x - 1) % BASE - x) * p == p * BASE - p
  {
  }

  lemma SameResidue(a: int, b: int, k: int, m: nat)
    requires m > 0 && a == b + k * m
    ensures a % m == b % m
  {
    var q, r := b / m, b % m;
    assert b == q * m + r;
    Distribute(q, k, m);
    DivMod(a, m, q + k, r);
  }

  lemma ResidueOfSum(x: int, y: int, m: nat)
    requires m > 0
    ensures (x + y % m) % m == (x + y) % m
  {
    assert y == (y / m) * m + y % m;
    SameResidue(x + y, x + y % m, y / m, m);
  }

  lemma ProductFits(carry: int, x: int, a: Limb, b: Limb)
    requires 0 <= carry < BASE && 0 <= x < BASE
    ensures 0 <= carry + x + a * b < BASE * BASE
    ensures 0 <= (carry + x + a * b) / BASE < BASE
  {
    MulMonotone(a, BASE - 1, b);
    MulMonotone(0, a, b);
    MulMonotone(b, BASE - 1, BASE - 1);
    var n: nat := carry + x + a * b;
    DivMod(n, BASE, n / BASE, n % BASE);
  }

  lemma SmallStep(carry: int, b: int, x: int, p: int, v: int)
    ensures (carry + b * x - x) * p == carry * p + (b - 1) * (x * p)
    ensures (b - 1) * (v + x * p) == (b - 1) * v + (b - 1) * (x * p)
  {
    assert carry + b * x - x == carry + (b - 1) * x;
    Distribute(carry, (b - 1) * x, p);
    assert ((b - 1) * x) * p == (b - 1) * (x * p);
  }
}
