/**
 * The compact encoding of difficulty targets: eight bits of base-256 exponent,
 * a sign bit and a 23-bit mantissa.
 */
module CompactTarget {
  import opened Powers
  import opened Limbs
  import opened ArithUint

  const LIMBS: nat := 8
  const SIGN: nat := 0x800000

  ghost const TOP: nat := Pow2(256)

  type Compact = x: int | 0 <= x < BASE

  function Size(c: Compact): nat { c / 0x1000000 }

  function Mantissa(c: Compact): nat { c % SIGN }

  function SignBit(c: Compact): bool { (c / SIGN) % 2 == 1 }

  /** 256 to the power `n`. */
  ghost function Bytes(n: nat): (p: nat)
    ensures p >= 1
  {
    Pow2(8 * n)
  }

  /** The mantissa after the right shift that small sizes need. */
  ghost function Word(c: Compact): nat {
    if Size(c) <= 3 then
      AtMostSelf(Mantissa(c), Bytes(3 - Size(c)));
      Mantissa(c) / Bytes(3 - Size(c))
    else
      Mantissa(c)
  }

  /** The number the encoding stands for, at unlimited precision. */
  ghost function Meaning(c: Compact): nat {
    if Size(c) <= 3 then Word(c) else Mantissa(c) * Bytes(Size(c) - 3)
  }

  /** What ends up in the 256-bit number. */
  ghost function Decode(c: Compact): nat {
    Meaning(c) % TOP
  }

  ghost predicate Negative(c: Compact) {
    Word(c) != 0 && SignBit(c)
  }

  /** The flag as computed, from the size and the mantissa alone. */
  ghost predicate Overflow(c: Compact) {
    var w, n := Word(c), Size(c);
    w != 0 && (n > 34 || (w > 0xff && n > 33) || (w > 0xffff && n > 32))
  }

  // ---------------------------------------------------------------- powers of 256

  lemma BytesAdd(a: nat, b: nat)
    ensures Bytes(a + b) == Bytes(a) * Bytes(b)
  {
    Pow2Add(8 * a, 8 * b);
  }

  lemma SmallBytes()
    ensures Bytes(0) == 1 && Bytes(1) == 256 && Bytes(2) == 0x10000 && Bytes(3) == 0x1000000
  {
    assert Pow2(8) == 256;
    BytesAdd(1, 1);
    BytesAdd(2, 1);
  }

  lemma BytesTop()
    ensures Bytes(32) == TOP && Place(8) == TOP
    ensures Bytes(31) * 256 == TOP && Bytes(30) * 0x10000 == TOP && Bytes(29) * 0x1000000 == TOP
  {
    hide Pow2;
    BytesIs();
    SmallBytes();
    BytesAdd(31, 1);
    BytesAdd(30, 2);
    BytesAdd(29, 3);
  }

  lemma BytesIs()
    ensures Bytes(32) == Pow2(256) && Place(8) == Pow2(256)
  {
  }

  lemma BytesMonotone(a: nat, b: nat)
    requires a <= b
    ensures Bytes(a) <= Bytes(b)
  {
    Pow2Monotone(8 * a, 8 * b);
  }

  lemma WordSmall(c: Compact)
    ensures Word(c) < SIGN
    ensures Size(c) <= 3 ==> Meaning(c) == Word(c) && Meaning(c) < SIGN
  {
    if Size(c) <= 3 { AtMostSelf(Mantissa(c), Bytes(3 - Size(c))); }
  }

  /** The overflow flag is set exactly when the number does not fit in 256 bits. */
  lemma OverflowExact(c: Compact)
    ensures Overflow(c) <==> Meaning(c) >= TOP
    ensures !Overflow(c) ==> Decode(c) == Meaning(c)
  {
    hide Bytes, Pow2;
    BytesTop();
    SmallBytes();
    WordSmall(c);
    var n, m := Size(c), Mantissa(c);
    if n > 3 {
      if n > 34 {
        BytesMonotone(32, n - 3);
        if m > 0 { MulMonotone(1, m, Bytes(n - 3)); }
      } else if n <= 32 {
        BytesMonotone(n - 3, 29);
        MulMonotone(m, 0xffffff, Bytes(n - 3));
      } else if n == 34 {
        ProductReaches(m, 256, Bytes(31), TOP);
      } else {
        ProductReaches(m, 0x10000, Bytes(30), TOP);
      }
    } else {
      MulMonotone(1, Bytes(29), 0x1000000);
    }
    if Meaning(c) < TOP { DivMod(Meaning(c), TOP, 0, Meaning(c)); }
  }

  /** At size three the mantissa is the number; each further byte of size multiplies it by 256. */
  lemma MeaningScales(c: Compact)
    ensures Size(c) == 3 ==> Meaning(c) == Mantissa(c)
    ensures 3 <= Size(c) < 255 ==> Meaning(c + 0x1000000) == 256 * Meaning(c)
  {
    hide Bytes, Pow2, Size, Mantissa;
    SmallBytes();
    NextSize(c);
    if 3 <= Size(c) < 255 {
      BytesAdd(Size(c) - 3, 1);
      assert Mantissa(c) * (Bytes(Size(c) - 3) * 256) == 256 * (Mantissa(c) * Bytes(Size(c) - 3));
    }
    if Size(c) == 3 { assert Mantissa(c) / 1 == Mantissa(c); }
  }

  lemma NextSize(c: Compact)
    ensures Size(c) < 255 ==> c + 0x1000000 < BASE && Size(c + 0x1000000) == Size(c) + 1
    ensures Size(c) < 255 ==> Mantissa(c + 0x1000000) == Mantissa(c)
  {
  }

  /** Below size three bytes are cut off the mantissa. */
  lemma MeaningCut(c: Compact)
    ensures Size(c) == 2 ==> Meaning(c) == Mantissa(c) / 256
    ensures Size(c) == 1 ==> Meaning(c) == Mantissa(c) / 0x10000
    ensures Size(c) == 0 ==> Meaning(c) == 0
  {
    hide Bytes, Pow2;
    SmallBytes();
  }

  lemma ProductReaches(m: nat, k: nat, p: nat, top: nat)
    requires p > 0 && p * k == top
    ensures m * p >= top <==> m >= k
  {
    if m >= k { MulMonotone(k, m, p); } else { MulMonotone(m, k - 1, p); }
  }

  // ---------------------------------------------------------------- encoding

  /** The number of bytes of `v`. */
  ghost function ByteLength(v: nat): nat {
    if v == 0 then 0 else 1 + ByteLength(v / 256)
  }

  lemma {:induction false} ByteLengthIs(v: nat, n: nat)
    requires n >= 1 && Bytes(n - 1) <= v < Bytes(n)
    ensures ByteLength(v) == n
    decreases n
  {
    hide Bytes;
    SmallBytes();
    if n > 1 {
      BytesAdd(n - 2, 1);
      BytesAdd(n - 1, 1);
      ByteLengthIs(v / 256, n - 1);
    }
  }

  lemma {:induction false} ByteLengthBounds(v: nat)
    requires v > 0
    ensures ByteLength(v) >= 1 && Bytes(ByteLength(v) - 1) <= v < Bytes(ByteLength(v))
  {
    hide Bytes;
    SmallBytes();
    if v >= 256 {
      ByteLengthBounds(v / 256);
      var n := ByteLength(v / 256);
      BytesAdd(n - 1, 1);
      BytesAdd(n, 1);
    }
  }

  /** The top three bytes of `v`, left-aligned. */
  ghost function TopBytes(v: nat): nat {
    var n := ByteLength(v);
    if n <= 3 then v * Bytes(3 - n) else v / Bytes(n - 3)
  }

  ghost function EncodedSize(v: nat): nat {
    ByteLength(v) + if TopBytes(v) >= SIGN then 1 else 0
  }

  ghost function EncodedMantissa(v: nat): nat {
    if TopBytes(v) >= SIGN then TopBytes(v) / 256 else TopBytes(v)
  }

  ghost function Encode(v: nat, negative: bool): nat {
    EncodedMantissa(v) + EncodedSize(v) * 0x1000000 + if negative && EncodedMantissa(v) != 0 then SIGN else 0
  }

  lemma TopBytesFit(v: nat)
    ensures TopBytes(v) < 0x1000000
    ensures v > 0 ==> TopBytes(v) >= 0x10000
    ensures v < TOP ==> ByteLength(v) <= 32
  {
    hide Bytes, Pow2;
    SmallBytes();
    if v > 0 {
      var n := ByteLength(v);
      ByteLengthBounds(v);
      if n <= 3 {
        BytesAdd(n, 3 - n);
        BytesAdd(n - 1, 3 - n);
        MulMonotone(v, Bytes(n) - 1, Bytes(3 - n));
        MulMonotone(Bytes(n - 1), v, Bytes(3 - n));
        assert (Bytes(n) - 1) * Bytes(3 - n) == Bytes(n) * Bytes(3 - n) - Bytes(3 - n);
      } else {
        BytesAdd(3, n - 3);
        BytesAdd(2, n - 3);
        QuotientBetween(v, Bytes(n - 3), Bytes(2), Bytes(3));
      }
      BytesTop();
      if n > 32 { BytesMonotone(32, n - 1); }
    }
  }

  lemma QuotientBetween(v: nat, p: nat, a: nat, b: nat)
    requires p > 0 && a * p <= v < b * p
    ensures a <= v / p < b
  {
    FloorBounds(v, p);
    if v / p < a { MulMonotone(v / p + 1, a, p); }
    if v / p >= b { MulMonotone(b, v / p, p); }
  }

  /** The parts of an encoded value can be read back. */
  lemma EncodeParts(v: nat, negative: bool)
    requires v < TOP
    ensures 0 <= Encode(v, negative) < BASE
    ensures Size(Encode(v, negative)) == EncodedSize(v)
    ensures Mantissa(Encode(v, negative)) == EncodedMantissa(v)
    ensures SignBit(Encode(v, negative)) <==> negative && EncodedMantissa(v) != 0
    ensures EncodedMantissa(v) < SIGN && EncodedSize(v) <= 33
  {
    hide Bytes, Pow2, ByteLength, TopBytes;
    TopBytesFit(v);
  }

  /** The mantissa of a value too long to be exact is at least 0x8000. */
  lemma EncodedNormal(v: nat)
    requires v < TOP
    ensures EncodedSize(v) > 3 ==> 0x8000 <= EncodedMantissa(v) < SIGN
  {
    hide Bytes, Pow2;
    TopBytesFit(v);
  }

  /** A value whose encoding needs no exponent above three is kept exactly. */
  lemma ShortExact(v: nat)
    requires v < TOP && EncodedSize(v) <= 3
    ensures EncodedMantissa(v) / Bytes(3 - EncodedSize(v)) == v
  {
    hide Bytes, Pow2;
    SmallBytes();
    TopBytesFit(v);
    var n := ByteLength(v);
    if v > 0 {
      ByteLengthBounds(v);
      if TopBytes(v) >= SIGN {
        BytesAdd(3 - n - 1, 1);
        assert v * Bytes(3 - n) == (v * Bytes(2 - n)) * 256;
      }
      MultipleMod(v, Bytes(3 - EncodedSize(v)));
    } else {
      DivMod(0, Bytes(3), 0, 0);
    }
  }

  /** A longer value is rounded down by less than one unit of its last mantissa digit. */
  lemma LongFloor(v: nat)
    requires v < TOP && EncodedSize(v) > 3
    ensures EncodedMantissa(v) * Bytes(EncodedSize(v) - 3) <= v < (EncodedMantissa(v) + 1) * Bytes(EncodedSize(v) - 3)
  {
    hide Bytes, Pow2;
    SmallBytes();
    var n := ByteLength(v);
    if n > 3 {
      var p, t := Bytes(n - 3), TopBytes(v);
      FloorBounds(v, p);
      if t >= SIGN {
        BytesAdd(n - 3, 1);
        FloorBounds(t, 256);
        Nested(v, p, t, t / 256);
      }
    } else {
      FloorBounds(v, 256);
    }
  }

  lemma FloorBounds(v: nat, p: nat)
    requires p > 0
    ensures (v / p) * p <= v < (v / p + 1) * p
  {
  }

  lemma Nested(v: nat, p: nat, t: nat, m: nat)
    requires t * p <= v < (t + 1) * p && m * 256 <= t < (m + 1) * 256
    ensures m * (p * 256) <= v < (m + 1) * (p * 256)
  {
    MulMonotone(m * 256, t, p);
    MulMonotone(t + 1, (m + 1) * 256, p);
    assert m * 256 * p == m * (p * 256);
    assert (m + 1) * 256 * p == (m + 1) * (p * 256);
  }

  /**
   * Encoding a value and decoding it again never increases it, raises neither
   * flag, and loses less than one part in 2^15.
   */
  lemma EncodeRoundsDown(v: nat)
    requires v < TOP
    ensures 0 <= Encode(v, false) < BASE
    ensures !Negative(Encode(v, false)) && !Overflow(Encode(v, false))
    ensures Decode(Encode(v, false)) <= v
    ensures (v - Decode(Encode(v, false))) * 0x8000 <= v
    ensures EncodedSize(v) <= 3 ==> Decode(Encode(v, false)) == v
  {
    hide Bytes, Pow2, Overflow, EncodedSize, EncodedMantissa, Encode, Size, Mantissa, SignBit, ByteLength, TopBytes;
    EncodeParts(v, false);
    var c: Compact := Encode(v, false);
    OverflowExact(c);
    if EncodedSize(v) <= 3 {
      ShortExact(v);
    } else {
      LongFloor(v);
      EncodedNormal(v);
      Loss(v, EncodedMantissa(v), Bytes(EncodedSize(v) - 3));
    }
  }

  lemma Loss(v: nat, m: nat, p: nat)
    requires 0x8000 <= m && m * p <= v < (m + 1) * p
    ensures (v - m * p) * 0x8000 <= v
  {
    assert (m + 1) * p == m * p + p;
    MulMonotone(0x8000, m, p);
  }

  /** Encoding picks the greatest number that the format can express and that is not above the value. */
  lemma EncodeGreatest(c: Compact, v: nat)
    requires v < TOP && Meaning(c) <= v
    ensures 0 <= Encode(v, false) < BASE && Meaning(c) <= Decode(Encode(v, false))
  {
    hide Bytes, Pow2, Overflow, EncodedSize, EncodedMantissa, Encode, Mantissa, SignBit, ByteLength, TopBytes;
    EncodeParts(v, false);
    EncodeRoundsDown(v);
    var e: Compact := Encode(v, false);
    OverflowExact(e);
    if EncodedSize(v) > 3 {
      var m, n := EncodedMantissa(v), EncodedSize(v);
      LongFloor(v);
      EncodedNormal(v);
      WordSmall(c);
      SmallBytes();
      BytesAdd(1, n - 4);
      MulMonotone(0x8000, m, Bytes(n - 3));
      if Size(c) <= 3 {
        MulMonotone(1, Bytes(n - 4), SIGN);
      } else if Size(c) >= n {
        BytesAdd(Size(c) - n, n - 3);
        MultipleBelow(Mantissa(c) * Bytes(Size(c) - n), m, Bytes(n - 3), v);
        assert Mantissa(c) * Bytes(Size(c) - n) * Bytes(n - 3) == Mantissa(c) * (Bytes(Size(c) - n) * Bytes(n - 3));
      } else {
        BytesMonotone(Size(c) - 3, n - 4);
        MantissaSmall(c);
        MulMonotone(Mantissa(c), SIGN, Bytes(Size(c) - 3));
        MulMonotone(Bytes(Size(c) - 3), Bytes(n - 4), SIGN);
      }
    }
  }

  lemma MantissaSmall(c: Compact)
    ensures Mantissa(c) < SIGN
  {
  }

  lemma MultipleBelow(k: nat, m: nat, p: nat, v: nat)
    requires k * p <= v < (m + 1) * p
    ensures k * p <= m * p
  {
    if k > m { MulMonotone(m + 1, k, p); } else { MulMonotone(k, m, p); }
  }

  /** Larger values never get smaller encodings. */
  lemma EncodeMonotone(v: nat, w: nat)
    requires v <= w < TOP
    ensures 0 <= Encode(v, false) < BASE && 0 <= Encode(w, false) < BASE
    ensures Decode(Encode(v, false)) <= Decode(Encode(w, false))
  {
    hide Bytes, Pow2, Overflow, Encode, Decode, Meaning;
    EncodeRoundsDown(v);
    OverflowExact(Encode(v, false));
    EncodeGreatest(Encode(v, false), w);
  }

  /** A normalised mantissa and size are what encoding their value gives back. */
  lemma EncodeNormal(m: nat, n: nat)
    requires 0x8000 <= m < SIGN && n > 3
    ensures EncodedMantissa(m * Bytes(n - 3)) == m && EncodedSize(m * Bytes(n - 3)) == n
  {
    hide Bytes, Pow2, ByteLength;
    SmallBytes();
    var v, p := m * Bytes(n - 3), Bytes(n - 3);
    if m >= 0x10000 {
      BytesAdd(2, n - 3);
      BytesAdd(3, n - 3);
      MulMonotone(0x10000, m, p);
      MulMonotone(m, 0x1000000 - 1, p);
      ByteLengthIs(v, n);
      MultipleMod(m, p);
    } else {
      BytesAdd(2, n - 3);
      BytesAdd(1, n - 3);
      MulMonotone(0x8000, m, p);
      MulMonotone(m, 0x10000 - 1, p);
      ByteLengthIs(v, n - 1);
      BytesAdd(n - 4, 1);
      assert v == (m * 256) * Bytes(n - 4) by { assert m * (Bytes(n - 4) * 256) == (m * 256) * Bytes(n - 4); }
      MultipleMod(m * 256, Bytes(n - 4));
    }
  }

  /** What has been through the encoding once is encoded the same way again. */
  lemma ReencodeSame(v: nat)
    requires v < TOP
    ensures 0 <= Encode(v, false) < BASE
    ensures Encode(Decode(Encode(v, false)), false) == Encode(v, false)
  {
    hide Bytes, Pow2, Overflow, EncodedSize, EncodedMantissa, Size, Mantissa, SignBit, ByteLength, TopBytes;
    EncodeParts(v, false);
    EncodeRoundsDown(v);
    if EncodedSize(v) > 3 {
      var c: Compact := Encode(v, false);
      OverflowExact(c);
      EncodedNormal(v);
      EncodeNormal(EncodedMantissa(v), EncodedSize(v));
    }
  }

  // ---------------------------------------------------------------- the 256-bit methods

  /** Reads a compact value into a 256-bit number and reports both flags. */
  method SetCompact(u: BaseUint, nCompact: Compact) returns (fNegative: bool, fOverflow: bool)
    requires u.pn.Length == LIMBS
    modifies u.pn
    ensures u.Number() == Decode(nCompact)
    ensures fNegative <==> Negative(nCompact)
    ensures fOverflow <==> Overflow(nCompact)
  {
    hide Value, Place, Pow2;
    BytesTop();
    WordSmall(nCompact);
    var nSize := nCompact / 0x1000000;
    var nWord := nCompact % SIGN;
    if nSize <= 3 {
      nWord := nWord / Pow2(8 * (3 - nSize));
      u.Assign64(nWord);
      SmallBelowTop(nWord);
    } else {
      u.Assign64(nWord);
      u.ShiftLeft(8 * (nSize - 3));
    }
    fNegative := nWord != 0 && (nCompact / SIGN) % 2 == 1;
    fOverflow := nWord != 0 && (nSize > 34 || (nWord > 0xff && nSize > 33) || (nWord > 0xffff && nSize > 32));
  }

  lemma SmallBelowTop(w: nat)
    requires w < SIGN
    ensures w % TOP == w
  {
    hide Bytes, Pow2;
    BytesTop();
    MulMonotone(1, Bytes(29), 0x1000000);
    DivMod(w, TOP, 0, w);
  }

  /** The compact encoding of a 256-bit number; neither internal assertion can fail. */
  method GetCompact(u: BaseUint, fNegative: bool) returns (nCompact: Compact)
    requires u.pn.Length == LIMBS
    ensures 0 <= u.Number() < TOP
    ensures nCompact == Encode(u.Number(), fNegative)
  {
    hide Value, Place, Pow2, Bytes, ByteLength, TopBytes;
    ValueBound(u.pn[..]);
    BytesTop();
    TopBytesFit(u.Number());
    var top, nSize := LeadingBytes(u);
    if (top / SIGN) % 2 == 1 {
      top := top / 256;
      nSize := nSize + 1;
    }
    assert top < SIGN && nSize < 256;
    nCompact := top + nSize * 0x1000000 + if fNegative && top != 0 then SIGN else 0;
  }

  /** The leading three bytes of a number and its length in bytes. */
  method LeadingBytes(u: BaseUint) returns (top: nat, nSize: nat)
    requires u.pn.Length == LIMBS && 0 <= u.Number()
    ensures top == TopBytes(u.Number()) && nSize == ByteLength(u.Number())
  {
    hide Value, Place, Pow2, Bytes, ByteLength, TopBytes;
    ghost var v := u.Number();
    var bits := u.Bits();
    nSize := (bits + 7) / 8;
    BitsToBytes(v, bits);
    TopBytesIs(v);
    if nSize <= 3 {
      var low := u.GetLow64();
      LowIs(v, nSize);
      top := low * Pow2(8 * (3 - nSize));
    } else {
      var bn := new BaseUint.Copy(u);
      bn.ShiftRight(8 * (nSize - 3));
      top := bn.GetLow64();
      TopBytesFit(v);
      DivMod(TopBytes(v), BASE * BASE, 0, TopBytes(v));
    }
  }

  lemma BitsToBytes(v: nat, bits: nat)
    requires v == 0 <==> bits == 0
    requires bits > 0 ==> Pow2(bits - 1) <= v < Pow2(bits)
    ensures ByteLength(v) == (bits + 7) / 8
  {
    hide Pow2, Bytes;
    if bits > 0 {
      var n := (bits + 7) / 8;
      Pow2Monotone(8 * (n - 1), bits - 1);
      Pow2Monotone(bits, 8 * n);
      BytesAre(n);
      BytesAre(n - 1);
      ByteLengthIs(v, n);
    }
  }

  lemma BytesAre(n: nat)
    ensures Bytes(n) == Pow2(8 * n)
  {
  }

  lemma TopBytesIs(v: nat)
    ensures ByteLength(v) <= 3 ==> TopBytes(v) == v * Pow2(8 * (3 - ByteLength(v)))
    ensures ByteLength(v) > 3 ==> TopBytes(v) == v / Pow2(8 * (ByteLength(v) - 3))
  {
  }

  lemma LowIs(v: nat, n: nat)
    requires n == ByteLength(v) <= 3
    ensures v % (BASE * BASE) == v
  {
    hide Bytes;
    SmallBytes();
    if v > 0 {
      ByteLengthBounds(v);
      BytesMonotone(n, 3);
    }
    DivMod(v, BASE * BASE, 0, v);
  }
}
