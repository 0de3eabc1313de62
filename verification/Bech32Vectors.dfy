/** A published test vector of the Bech32 encoding: it fixes the alphabet, the generator and the start value. */
module Bech32Vectors {
  import opened Bech32

  /** The letters a to f, and what the checksum reads for them. */
  const PREFIX: Text := [97, 98, 99, 100, 101, 102]
  const EXPANDED: seq<Symbol> := [3, 3, 3, 3, 3, 3, 0, 1, 2, 3, 4, 5, 6]

  /** All symbols in order, then the checksum. */
  const ROW1: seq<Symbol> := [0, 1, 2, 3, 4, 5, 6, 7]
  const ROW2: seq<Symbol> := [8, 9, 10, 11, 12, 13, 14, 15]
  const ROW3: seq<Symbol> := [16, 17, 18, 19, 20, 21, 22, 23]
  const ROW4: seq<Symbol> := [24, 25, 26, 27, 28, 29, 30, 31]
  const SUMS: seq<Symbol> := [27, 0, 0, 0, 6, 14]

  /** Their characters: qpzry9x8 gf2tvdw0 s3jn54kh ce6mua7l and mqqqxw. */
  const ROW1_TEXT: Text := [113, 112, 122, 114, 121, 57, 120, 56]
  const ROW2_TEXT: Text := [103, 102, 50, 116, 118, 100, 119, 48]
  const ROW3_TEXT: Text := [115, 51, 106, 110, 53, 52, 107, 104]
  const ROW4_TEXT: Text := [99, 101, 54, 109, 117, 97, 55, 108]
  const SUMS_TEXT: Text := [109, 113, 113, 113, 120, 119]

  lemma Reads(c: bv32, v: seq<Symbol>, i: nat, x: Symbol, d: bv32)
    requires i < |v| && v[i] == x && Run(c, v[..i]) == d
    ensures Run(c, v[..i + 1]) == Step(d, x)
  {
    hide Step, Run;
    assert v[..i + 1] == v[..i] + [x];
    RunSnoc(c, v[..i], x);
  }

  lemma ExpandedSteps()
    ensures Step(0x00000001, 3) == 0x00000023
    ensures Step(0x00000023, 3) == 0x00000463
    ensures Step(0x00000463, 3) == 0x00008c63
    ensures Step(0x00008c63, 3) == 0x00118c63
    ensures Step(0x00118c63, 3) == 0x02318c63
    ensures Step(0x02318c63, 3) == 0x3d5bdbd1
    ensures Step(0x3d5bdbd1, 0) == 0x04dcbcd9
    ensures Step(0x04dcbcd9, 1) == 0x3dc7154c
    ensures Step(0x3dc7154c, 2) == 0x17456f7b
    ensures Step(0x17456f7b, 3) == 0x08d50561
    ensures Step(0x08d50561, 4) == 0x0401b5de
    ensures Step(0x0401b5de, 5) == 0x266635a8
    ensures Step(0x266635a8, 6) == 0x3be80e6a
  {
  }

  lemma ExpandedRead()
    ensures Run(0x00000001, EXPANDED) == 0x3be80e6a
  {
    hide Step, Run;
    ExpandedSteps();
    var c, v := 0x00000001, EXPANDED;
    assert v[..0] == [] && v[..13] == v;
    RunNothing(c);
    Reads(c, v, 0, 3, 0x00000001);
    Reads(c, v, 1, 3, 0x00000023);
    Reads(c, v, 2, 3, 0x00000463);
    Reads(c, v, 3, 3, 0x00008c63);
    Reads(c, v, 4, 3, 0x00118c63);
    Reads(c, v, 5, 3, 0x02318c63);
    Reads(c, v, 6, 0, 0x3d5bdbd1);
    Reads(c, v, 7, 1, 0x04dcbcd9);
    Reads(c, v, 8, 2, 0x3dc7154c);
    Reads(c, v, 9, 3, 0x17456f7b);
    Reads(c, v, 10, 4, 0x08d50561);
    Reads(c, v, 11, 5, 0x0401b5de);
    Reads(c, v, 12, 6, 0x266635a8);
  }

  lemma Row1Steps()
    ensures Step(0x3be80e6a, 0) == 0x0f9cd266
    ensures Step(0x0f9cd266, 1) == 0x30018ce4
    ensures Step(0x30018ce4, 2) == 0x1767cdec
    ensures Step(0x1767cdec, 3) == 0x0c815781
    ensures Step(0x0c815781, 4) == 0x28db67b3
    ensures Step(0x28db67b3, 5) == 0x2fd98d2c
    ensures Step(0x2fd98d2c, 6) == 0x12be0710
    ensures Step(0x12be0710, 7) == 0x11e88668
  {
  }

  lemma Row1Read()
    ensures Run(0x3be80e6a, ROW1) == 0x11e88668
  {
    hide Step, Run;
    Row1Steps();
    var c, v := 0x3be80e6a, ROW1;
    assert v[..0] == [] && v[..8] == v;
    RunNothing(c);
    Reads(c, v, 0, 0, 0x3be80e6a);
    Reads(c, v, 1, 1, 0x0f9cd266);
    Reads(c, v, 2, 2, 0x30018ce4);
    Reads(c, v, 3, 3, 0x1767cdec);
    Reads(c, v, 4, 4, 0x0c815781);
    Reads(c, v, 5, 5, 0x28db67b3);
    Reads(c, v, 6, 6, 0x2fd98d2c);
    Reads(c, v, 7, 7, 0x12be0710);
  }

  lemma Row2Steps()
    ensures Step(0x11e88668, 8) == 0x0052fed5
    ensures Step(0x0052fed5, 9) == 0x0a5fdaa9
    ensures Step(0x0a5fdaa9, 10) == 0x2e301b62
    ensures Step(0x2e301b62, 11) == 0x2f8ccedd
    ensures Step(0x2f8ccedd, 12) == 0x1816793a
    ensures Step(0x1816793a, 13) == 0x212c0d6a
    ensures Step(0x212c0d6a, 14) == 0x0f95cffd
    ensures Step(0x0f95cffd, 15) == 0x31223f8a
  {
  }

  lemma Row2Read()
    ensures Run(0x11e88668, ROW2) == 0x31223f8a
  {
    hide Step, Run;
    Row2Steps();
    var c, v := 0x11e88668, ROW2;
    assert v[..0] == [] && v[..8] == v;
    RunNothing(c);
    Reads(c, v, 0, 8, 0x11e88668);
    Reads(c, v, 1, 9, 0x0052fed5);
    Reads(c, v, 2, 10, 0x0a5fdaa9);
    Reads(c, v, 3, 11, 0x2e301b62);
    Reads(c, v, 4, 12, 0x2f8ccedd);
    Reads(c, v, 5, 13, 0x1816793a);
    Reads(c, v, 6, 14, 0x212c0d6a);
    Reads(c, v, 7, 15, 0x0f95cffd);
  }

  lemma Row3Steps()
    ensures Step(0x31223f8a, 16) == 0x3311a03e
    ensures Step(0x3311a03e, 17) == 0x0e08010d
    ensures Step(0x0e08010d, 18) == 0x029be197
    ensures Step(0x029be197, 19) == 0x28166541
    ensures Step(0x28166541, 20) == 0x3679d37d
    ensures Step(0x3679d37d, 21) == 0x0556e704
    ensures Step(0x0556e704, 22) == 0x0c8c6efb
    ensures Step(0x0c8c6efb, 23) == 0x297c48e0
  {
  }

  lemma Row3Read()
    ensures Run(0x31223f8a, ROW3) == 0x297c48e0
  {
    hide Step, Run;
    Row3Steps();
    var c, v := 0x31223f8a, ROW3;
    assert v[..0] == [] && v[..8] == v;
    RunNothing(c);
    Reads(c, v, 0, 16, 0x31223f8a);
    Reads(c, v, 1, 17, 0x3311a03e);
    Reads(c, v, 2, 18, 0x0e08010d);
    Reads(c, v, 3, 19, 0x029be197);
    Reads(c, v, 4, 20, 0x28166541);
    Reads(c, v, 5, 21, 0x3679d37d);
    Reads(c, v, 6, 22, 0x0556e704);
    Reads(c, v, 7, 23, 0x0c8c6efb);
  }

  lemma Row4Steps()
    ensures Step(0x297c48e0, 24) == 0x1b3c6751
    ensures Step(0x1b3c6751, 25) == 0x3f0597ac
    ensures Step(0x3f0597ac, 26) == 0x347f64d1
    ensures Step(0x347f64d1, 27) == 0x3eea4538
    ensures Step(0x3eea4538, 28) == 0x09853657
    ensures Step(0x09853657, 29) == 0x2e07d307
    ensures Step(0x2e07d307, 30) == 0x2975c268
    ensures Step(0x2975c268, 31) == 0x1a0d3656
  {
  }

  lemma Row4Read()
    ensures Run(0x297c48e0, ROW4) == 0x1a0d3656
  {
    hide Step, Run;
    Row4Steps();
    var c, v := 0x297c48e0, ROW4;
    assert v[..0] == [] && v[..8] == v;
    RunNothing(c);
    Reads(c, v, 0, 24, 0x297c48e0);
    Reads(c, v, 1, 25, 0x1b3c6751);
    Reads(c, v, 2, 26, 0x3f0597ac);
    Reads(c, v, 3, 27, 0x347f64d1);
    Reads(c, v, 4, 28, 0x3eea4538);
    Reads(c, v, 5, 29, 0x09853657);
    Reads(c, v, 6, 30, 0x2e07d307);
    Reads(c, v, 7, 31, 0x2975c268);
  }

  lemma SumsSteps()
    ensures Step(0x1a0d3656, 27) == 0x192fb74e
    ensures Step(0x192fb74e, 0) == 0x0615c3e7
    ensures Step(0x0615c3e7, 0) == 0x1f82a53f
    ensures Step(0x1f82a53f, 0) == 0x0e8d5418
    ensures Step(0x0e8d5418, 6) == 0x12314323
    ensures Step(0x12314323, 14) == 0x00000001
  {
  }

  lemma SumsRead()
    ensures Run(0x1a0d3656, SUMS) == 0x00000001
  {
    hide Step, Run;
    SumsSteps();
    var c, v := 0x1a0d3656, SUMS;
    assert v[..0] == [] && v[..6] == v;
    RunNothing(c);
    Reads(c, v, 0, 27, 0x1a0d3656);
    Reads(c, v, 1, 0, 0x192fb74e);
    Reads(c, v, 2, 0, 0x0615c3e7);
    Reads(c, v, 3, 0, 0x1f82a53f);
    Reads(c, v, 4, 6, 0x0e8d5418);
    Reads(c, v, 5, 14, 0x12314323);
  }

  lemma PrefixExpanded()
    ensures Expand(PREFIX) == EXPANDED
  {
    assert (97 / 32) as Symbol == 3 && (97 % 32) as Symbol == 1 && (98 % 32) as Symbol == 2;
    assert (99 % 32) as Symbol == 3 && (100 % 32) as Symbol == 4 && (101 % 32) as Symbol == 5;
    assert (102 % 32) as Symbol == 6;
  }

  lemma VectorVerifies()
    ensures Verifies(PREFIX, ROW1 + ROW2 + ROW3 + ROW4 + SUMS)
  {
    hide Run, Expand;
    PrefixExpanded();
    ExpandedRead();
    Row1Read();
    Row2Read();
    Row3Read();
    Row4Read();
    SumsRead();
    var v1 := EXPANDED + ROW1;
    RunAppend(1, EXPANDED, ROW1);
    RunAppend(1, v1, ROW2);
    RunAppend(1, v1 + ROW2, ROW3);
    RunAppend(1, v1 + ROW2 + ROW3, ROW4);
    RunAppend(1, v1 + ROW2 + ROW3 + ROW4, SUMS);
    assert EXPANDED + (ROW1 + ROW2 + ROW3 + ROW4 + SUMS) == v1 + ROW2 + ROW3 + ROW4 + SUMS;
  }

  lemma SpelledAppend(a: seq<Symbol>, b: seq<Symbol>)
    ensures Spelled(a + b) == Spelled(a) + Spelled(b)
  {
    hide CharOf;
  }

  lemma Row1Spelled()
    ensures Spelled(ROW1) == ROW1_TEXT
  {
  }

  lemma Row2Spelled()
    ensures Spelled(ROW2) == ROW2_TEXT
  {
  }

  lemma Row3Spelled()
    ensures Spelled(ROW3) == ROW3_TEXT
  {
  }

  lemma Row4Spelled()
    ensures Spelled(ROW4) == ROW4_TEXT
  {
  }

  lemma SumsSpelled()
    ensures Spelled(SUMS) == SUMS_TEXT
  {
  }

  /** The letters a to f, the separator, all characters in order of their symbols, and mqqqxw. */
  lemma VectorEncodes()
    ensures EncodeText(PREFIX, ROW1 + ROW2 + ROW3 + ROW4)
         == PREFIX + [SEPARATOR] + (ROW1_TEXT + ROW2_TEXT + ROW3_TEXT + ROW4_TEXT + SUMS_TEXT)
  {
    hide Verifies, Checksum, Spelled;
    VectorVerifies();
    ChecksumUnique(PREFIX, ROW1 + ROW2 + ROW3 + ROW4, SUMS);
    SpelledAppend(ROW1, ROW2);
    SpelledAppend(ROW1 + ROW2, ROW3);
    SpelledAppend(ROW1 + ROW2 + ROW3, ROW4);
    SpelledAppend(ROW1 + ROW2 + ROW3 + ROW4, SUMS);
    Row1Spelled();
    Row2Spelled();
    Row3Spelled();
    Row4Spelled();
    SumsSpelled();
  }
}
