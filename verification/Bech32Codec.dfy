/** Bech32 strings: round trips both ways, and the loops that compute them. */
module Bech32Codec {
  import opened Bech32
  import opened Options

  /** The encoded string splits back into the parts it was made of. */
  lemma EncodedParts(hrp: Text, values: seq<Symbol>)
    ensures var s := EncodeText(hrp, values);
      && LastSeparator(s) == |hrp| && |s| == |hrp| + |values| + 7
      && s[..|hrp|] == hrp && s[|hrp| + 1..] == Spelled(values + Checksum(hrp, values))
      && Spells(s[|hrp| + 1..]) && Symbols(s[|hrp| + 1..]) == values + Checksum(hrp, values)
  {
    hide Checksum, Symbols, Spells, Spelled;
    var t := Spelled(values + Checksum(hrp, values));
    SpelledRead(values + Checksum(hrp, values));
    LastSeparatorIs(hrp, t);
    var s := EncodeText(hrp, values);
    assert s[|hrp| + 1..] == t;
  }

  lemma EncodedPrintable(hrp: Text, values: seq<Symbol>)
    requires PlainHrp(hrp)
    ensures Printable(EncodeText(hrp, values)) && !MixedCase(EncodeText(hrp, values))
  {
    hide Checksum, CharOf;
    var v := values + Checksum(hrp, values);
    SpelledRead(v);
    var s := EncodeText(hrp, values);
    forall i | 0 <= i < |s|
      ensures 33 <= s[i] <= 126 && !IsUpper(s[i])
    {
      if i > |hrp| { assert s[i] == Spelled(v)[i - |hrp| - 1]; }
    }
  }

  /**
   * What is never decoded: characters outside 33 to 126, capital and small
   * letters together, more than 90 characters, or no separator with a
   * character before it and six after it.
   */
  lemma DecodeRefuses(s: Text)
    requires
      || (exists i :: 0 <= i < |s| && !(33 <= s[i] <= 126))
      || (exists i, j :: 0 <= i < |s| && 0 <= j < |s| && 65 <= s[i] <= 90 && 97 <= s[j] <= 122)
      || |s| > 90
      || (forall i :: 1 <= i < |s| && s[i] == 49 ==> i + 7 > |s|)
    ensures DecodeText(s).None?
  {
    hide Verifies, Symbols, Spells, Lowered, LastSeparator;
    LastSeparatorAt(s);
    if i, j :| 0 <= i < |s| && 0 <= j < |s| && 65 <= s[i] <= 90 && 97 <= s[j] <= 122 {
      assert IsUpper(s[i]) && IsLower(s[j]);
    }
  }

  /**
   * Decoding gives back exactly what was encoded if and only if the
   * human-readable part is plain and the string is at most 90 characters.
   */
  lemma DecodeEncode(hrp: Text, values: seq<Symbol>)
    ensures DecodeText(EncodeText(hrp, values)) == Some((hrp, values)) <==> PlainHrp(hrp) && |hrp| + |values| + 7 <= 90
  {
    hide Checksum, Symbols, Spells, Spelled, EncodeText, Verifies, MixedCase;
    EncodedParts(hrp, values);
    var s, v := EncodeText(hrp, values), values + Checksum(hrp, values);
    LoweredSame(hrp);
    if PlainHrp(hrp) && |hrp| + |values| + 7 <= 90 {
      EncodedPrintable(hrp, values);
      ChecksumVerifies(hrp, values);
      assert v[..|v| - 6] == values;
    }
    if DecodeText(s) == Some((hrp, values)) {
      forall i | 0 <= i < |hrp|
        ensures 33 <= hrp[i] <= 126
      {
        assert s[..|hrp|][i] == s[i];
      }
    }
  }

  /** Encoding what was decoded gives the string back in lower case. */
  lemma EncodeDecode(s: Text)
    requires DecodeText(s).Some?
    ensures var (hrp, values) := DecodeText(s).value; EncodeText(hrp, values) == Lowered(s)
  {
    hide Checksum, Symbols, Spells, Spelled, Verifies, MixedCase, Printable;
    var pos := LastSeparator(s);
    var (hrp, values) := DecodeText(s).value;
    var all := Symbols(s[pos + 1..]);
    var n := |all| - 6;
    assert all == all[..n] + all[n..];
    ChecksumUnique(hrp, values, all[n..]);
    ReadSpelled(s[pos + 1..]);
    LastSeparatorAt(s);
    var t := EncodeText(hrp, values);
    assert t == Lowered(s[..pos]) + [SEPARATOR] + Lowered(s[pos + 1..]);
    LoweredParts(s, pos);
  }

  lemma LoweredParts(s: Text, pos: nat)
    requires pos < |s| && s[pos] == SEPARATOR
    ensures Lowered(s) == Lowered(s[..pos]) + [SEPARATOR] + Lowered(s[pos + 1..])
  {
  }

  // ---------------------------------------------------------------- the loops

  method PolyMod(v: seq<Symbol>) returns (c: bv32)
    ensures c == Run(1, v)
  {
    c := 1;
    for i := 0 to |v|
      invariant c == Run(1, v[..i])
    {
      assert v[..i + 1][..i] == v[..i];
      c := PolyStep(c, v[i]);
    }
    assert v[..|v|] == v;
  }

  /** One round of the remainder loop, with its five conditional additions. */
  method PolyStep(c: bv32, v: Symbol) returns (r: bv32)
    ensures r == Step(c, v)
  {
    hide Xor, Shifted, Leads;
    r := Shifted(c, v);
    XorSelf(r);
    if Leads(c, 1) { r := Xor(r, 0x3b6a57b2); }
    XorSelf(r);
    if Leads(c, 2) { r := Xor(r, 0x26508e6d); }
    XorSelf(r);
    if Leads(c, 4) { r := Xor(r, 0x1ea119fa); }
    XorSelf(r);
    if Leads(c, 8) { r := Xor(r, 0x3d4233dd); }
    XorSelf(r);
    if Leads(c, 16) { r := Xor(r, 0x2a1462b3); }
  }

  method ExpandHRP(hrp: Text) returns (ret: seq<Symbol>)
    ensures ret == Expand(hrp)
  {
    var n := |hrp|;
    ret := Zeros(2 * n + 1);
    for i := 0 to n
      invariant |ret| == 2 * n + 1 && ret[n] == 0
      invariant forall k :: 0 <= k < i ==> ret[k] == (hrp[k] / 32) as Symbol
      invariant forall k :: n < k <= n + i ==> ret[k] == (hrp[k - n - 1] % 32) as Symbol
    {
      ret := ret[i := (hrp[i] / 32) as Symbol][i + n + 1 := (hrp[i] % 32) as Symbol];
    }
    ret := ret[n := 0];
    assert ret == Expand(hrp);
  }

  method VerifyChecksum(hrp: Text, values: seq<Symbol>) returns (ok: bool)
    ensures ok <==> Verifies(hrp, values)
  {
    var e := ExpandHRP(hrp);
    var c := PolyMod(e + values);
    ok := c == 1;
  }

  method CreateChecksum(hrp: Text, values: seq<Symbol>) returns (ret: seq<Symbol>)
    ensures ret == Checksum(hrp, values)
    ensures Verifies(hrp, values + ret)
  {
    hide Group, Run, Xor;
    ChecksumVerifies(hrp, values);
    var e := ExpandHRP(hrp);
    var r := PolyMod(e + values + Zeros(6));
    var mod := Xor(r, 1);
    ret := [];
    for i := 0 to 6
      invariant |ret| == i && forall k :: 0 <= k < i ==> ret[k] == Group(mod, k)
    {
      ret := ret + [Group(mod, i)];
    }
    assert ret == Groups(mod);
  }

  method Encode(hrp: Text, values: seq<Symbol>) returns (ret: Text)
    ensures ret == EncodeText(hrp, values)
  {
    hide Checksum, Spelled;
    var checksum := CreateChecksum(hrp, values);
    var letters := Spell(values + checksum);
    ret := hrp + [SEPARATOR] + letters;
  }

  method Spell(v: seq<Symbol>) returns (t: Text)
    ensures t == Spelled(v)
  {
    hide CharOf, Spelled;
    t := [];
    for i := 0 to |v|
      invariant t == Spelled(v)[..i]
    {
      SpelledStep(v, i);
      t := t + [CharOf(v[i] as int)];
    }
    assert Spelled(v)[..|v|] == Spelled(v);
  }

  lemma SpelledStep(v: seq<Symbol>, i: nat)
    requires i < |v|
    ensures Spelled(v)[..i + 1] == Spelled(v)[..i] + [CharOf(v[i] as int)]
  {
    hide CharOf;
    assert Spelled(v)[i] == CharOf(v[i] as int);
  }

  method CheckCharacters(s: Text) returns (ok: bool)
    ensures ok <==> Printable(s) && !MixedCase(s)
  {
    var lower, upper := false, false;
    for i := 0 to |s|
      invariant forall k :: 0 <= k < i ==> 33 <= s[k] <= 126
      invariant lower <==> exists k :: 0 <= k < i && IsLower(s[k])
      invariant upper <==> exists k :: 0 <= k < i && IsUpper(s[k])
    {
      if s[i] < 33 || s[i] > 126 { return false; }
      if IsLower(s[i]) { lower := true; }
      if IsUpper(s[i]) { upper := true; }
    }
    ok := !(lower && upper);
  }

  method FindSeparator(s: Text) returns (pos: int)
    ensures pos == LastSeparator(s)
  {
    pos := |s| - 1;
    assert s[..|s|] == s;
    while pos >= 0 && s[pos] != SEPARATOR
      invariant -1 <= pos < |s| && LastSeparator(s) == LastSeparator(s[..pos + 1])
    {
      assert s[..pos + 1][..pos] == s[..pos];
      pos := pos - 1;
    }
    if pos >= 0 { assert s[..pos + 1][pos] == SEPARATOR; }
  }

  method ReadSymbols(s: Text) returns (ok: bool, values: seq<Symbol>)
    ensures ok <==> Spells(s)
    ensures ok ==> values == Symbols(s)
  {
    hide SymbolOf;
    values := [];
    for i := 0 to |s|
      invariant |values| == i
      invariant forall k :: 0 <= k < i ==> SymbolOf(s[k]) != -1 && values[k] == SymbolOf(s[k]) as Symbol
    {
      var rev := SymbolOf(s[i]);
      if rev == -1 { return false, values; }
      values := values + [rev as Symbol];
    }
    return true, values;
  }

  method Decode(s: Text) returns (r: Option<(Text, seq<Symbol>)>)
    ensures r == DecodeText(s)
  {
    hide Printable, MixedCase, Verifies, Symbols, Spells, LastSeparator;
    r := None;
    var ok := CheckCharacters(s);
    if !ok { return; }
    var pos := FindSeparator(s);
    if |s| > 90 || pos == -1 || pos == 0 || pos + 7 > |s| { return; }
    var values;
    ok, values := ReadSymbols(s[pos + 1..]);
    if !ok { return; }
    var hrp: Text := [];
    for i := 0 to pos
      invariant |hrp| == i && forall k :: 0 <= k < i ==> hrp[k] == LowerCase(s[k])
    {
      hrp := hrp + [LowerCase(s[i])];
    }
    assert hrp == Lowered(s[..pos]);
    ok := VerifyChecksum(hrp, values);
    if ok { r := Some((hrp, values[..|values| - 6])); }
  }
}
