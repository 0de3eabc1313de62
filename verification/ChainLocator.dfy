/** Block locators: exponentially spaced ancestors of a block, down to the genesis block. */
module ChainLocator {
  import opened Powers
  import opened ChainIndex

  function Back(h: nat, step: nat): nat {
    if h >= step then h - step else 0
  }

  /** The heights of a locator from height `h`, with `size` entries before it. */
  function Heights(h: nat, step: nat, size: nat): (r: seq<nat>)
    requires step >= 1
    ensures |r| >= 1 && r[0] == h
    decreases h
  {
    if h == 0 then [0] else
      [h] + Heights(Back(h, step), if size + 1 > 10 then 2 * step else step, size + 1)
  }

  /** Heights strictly decrease and end at zero. */
  lemma {:induction false} HeightsDecrease(h: nat, step: nat, size: nat)
    requires step >= 1
    ensures
      var r := Heights(h, step, size);
      && r[|r| - 1] == 0
      && forall i, j :: 0 <= i < j < |r| ==> r[i] > r[j]
    decreases h
  {
    if h > 0 {
      var step' := if size + 1 > 10 then 2 * step else step;
      HeightsDecrease(Back(h, step), step', size + 1);
      var r, rest := Heights(h, step, size), Heights(Back(h, step), step', size + 1);
      forall i, j | 0 <= i < j < |r|
        ensures r[i] > r[j]
      {
        assert r[j] == rest[j - 1] <= rest[0];
        assert i > 0 ==> r[i] == rest[i - 1];
      }
    }
  }

  /** Up to ten blocks above genesis, every block is listed. */
  lemma {:induction false} ShortLocator(h: nat, size: nat)
    requires h + size <= 10
    ensures |Heights(h, 1, size)| == h + 1
    decreases h
  {
    if h > 0 {
      ShortLocator(h - 1, size + 1);
    }
  }

  /** The first eleven entries step back by one each. */
  lemma {:induction false} FirstEntries(h: nat, size: nat)
    requires size <= 10 && h + size >= 11
    ensures |Heights(h, 1, size)| == (11 - size) + |Heights(h - (11 - size), 2, 11)|
    decreases h
  {
    if size < 10 {
      FirstEntries(h - 1, size + 1);
    }
  }

  /** After that the steps double: `m` further entries cover 2^k * (2^m - 1) blocks. */
  lemma {:induction false} DoublingEntries(h: nat, k: nat, size: nat) returns (m: nat)
    requires size >= 11
    ensures |Heights(h, Pow2(k), size)| == 1 + m
    ensures Pow2(k) * (Pow2(m) - 1) >= h
    ensures if m == 0 then h == 0 else Pow2(k) * (Pow2(m - 1) - 1) < h
    decreases h
  {
    if h == 0 {
      m := 0;
    } else {
      var m' := DoublingEntries(Back(h, Pow2(k)), k + 1, size + 1);
      m := m' + 1;
      Unroll(k, m');
      if m' > 0 {
        Unroll(k, m' - 1);
      }
    }
  }

  lemma Unroll(k: nat, m: nat)
    ensures Pow2(k) * (Pow2(m + 1) - 1) == Pow2(k + 1) * (Pow2(m) - 1) + Pow2(k)
  {
    var a, b := Pow2(k), Pow2(m);
    assert a * (2 * b - 1) == 2 * a * (b - 1) + a;
  }

  /** The exact number of entries. */
  lemma LocatorLength(h: nat)
    ensures |Heights(h, 1, 0)| == if h < 10 then h + 1 else 11 + CeilLog2(h - 9)
  {
    if h <= 10 {
      ShortLocator(h, 0);
    } else {
      FirstEntries(h, 0);
      assert Pow2(1) == 2;
      var m := DoublingEntries(h - 11, 1, 11);
      assert m > 0 ==> Pow2(m) == 2 * Pow2(m - 1);
      CeilLog2Is(h - 9, m + 1);
    }
  }

  lemma {:induction false} DoublingAt(h: nat, k: nat, size: nat, i: nat)
    requires size >= 11 && i < |Heights(h, Pow2(k), size)|
    ensures Heights(h, Pow2(k), size)[i] == Back(h, Pow2(k) * (Pow2(i) - 1))
    decreases h
  {
    if i == 0 {
      assert Pow2(k) * (Pow2(0) - 1) == 0;
    } else {
      DoublingAt(Back(h, Pow2(k)), k + 1, size + 1, i - 1);
      Unroll(k, i - 1);
    }
  }

  lemma TurnAt(h: nat, i: nat)
    requires i < |Heights(h, 1, 10)|
    ensures Heights(h, 1, 10)[i] == Back(h, Pow2(i) - 1)
  {
    if i > 0 {
      assert Pow2(1) == 2;
      DoublingAt(h - 1, 1, 11, i - 1);
    }
  }

  lemma {:induction false} FrontAt(h: nat, size: nat, i: nat)
    requires size <= 10 && i < |Heights(h, 1, size)|
    ensures Heights(h, 1, size)[i] == if size + i <= 10 then Back(h, i) else Back(h, Pow2(size + i - 10) + 9 - size)
    decreases h
  {
    hide Pow2;
    if size == 10 {
      TurnAt(h, i);
    } else if i > 0 {
      FrontAt(h - 1, size + 1, i - 1);
    }
  }

  /** Each entry: the ten blocks below the first one by one, then gaps of 1, 2, 4 and so on, and genesis last. */
  lemma LocatorEntry(h: nat, i: nat)
    requires i < |Heights(h, 1, 0)|
    ensures Heights(h, 1, 0)[i] == Back(h, if i <= 10 then i else 9 + Pow2(i - 10))
  {
    FrontAt(h, 0, i);
  }

  /** A list of ancestors of `b` at the given heights. */
  ghost predicate AreAncestors(b: BlockIndex, blocks: seq<BlockIndex>, heights: seq<nat>)
    requires b.Linked()
  {
    && |blocks| == |heights|
    && forall i :: 0 <= i < |blocks| ==> heights[i] <= b.nHeight && blocks[i] == b.Ancestor(heights[i])
  }

  /** The locator of a block, or of the tip; empty only for the tip of an empty chain. */
  method GetLocator(chain: Chain, block: BlockIndex?) returns (vHave: seq<BlockIndex>)
    requires chain.Valid()
    requires block != null ==> block.Linked() && block.SkipsOk()
    requires chain.Tip() != null ==> chain.Tip().Linked() && chain.Tip().SkipsOk()
    ensures
      var from := if block != null then block else chain.Tip();
      if from == null then vHave == []
      else AreAncestors(from, vHave, Heights(from.nHeight, 1, 0))
  {
    hide BlockIndex.SkipsOk, BlockIndex.Lineage, Heights;
    vHave := [];
    var from: BlockIndex? := block;
    if from == null {
      from := chain.Tip();
    }
    if from == null {
      return;
    }
    var pindex: BlockIndex := from;
    var nStep := 1;
    ghost var all, rest := Heights(from.nHeight, 1, 0), Heights(from.nHeight, 1, 0);
    while true
      invariant nStep >= 1 && from.Linked() && pindex.Linked() && pindex.SkipsOk()
      invariant pindex.nHeight <= from.nHeight && pindex == from.Ancestor(pindex.nHeight)
      invariant rest == Heights(pindex.nHeight, nStep, |vHave|)
      invariant |vHave| + |rest| == |all| && rest == all[|vHave|..]
      invariant AreAncestors(from, vHave, all[..|vHave|])
      invariant chain.Valid()
      decreases pindex.nHeight
    {
      HeightsUnfold(pindex.nHeight, nStep, |vHave|);
      assert all[|vHave|] == rest[0] == pindex.nHeight;
      vHave := vHave + [pindex];
      if pindex.nHeight == 0 {
        assert all[..|vHave|] == all;
        break;
      }
      var nHeight := Back(pindex.nHeight, nStep);
      from.AncestorOfAncestor(pindex.nHeight, nHeight);
      rest := rest[1..];
      if chain.Contains(pindex) {
        chain.ChainIsLineage(pindex.nHeight, nHeight);
        pindex.SkipsOfAncestor(nHeight);
        pindex := chain.At(nHeight);
      } else {
        var ancestor := pindex.GetAncestor(nHeight);
        pindex.SkipsOfAncestor(nHeight);
        pindex := ancestor;
      }
      if |vHave| > 10 {
        nStep := nStep * 2;
      }
    }
  }

  lemma HeightsUnfold(h: nat, step: nat, size: nat)
    requires step >= 1
    ensures h == 0 ==> Heights(h, step, size) == [0]
    ensures h > 0 ==>
      Heights(h, step, size)[1..] == Heights(Back(h, step), if size + 1 > 10 then 2 * step else step, size + 1)
  {
  }
}
