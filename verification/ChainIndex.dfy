/**
 The block index with its skip list, and the active chain. The fast ancestor lookup agrees
 with the walk along parents; the chain, fork and locator operations are proved against it.
 */
module ChainIndex {

  // ---------------------------------------------------------------- skip heights

  /** Bitwise and of two natural numbers. */
  function And(a: nat, b: nat): nat
    decreases a + b
  {
    if a == 0 || b == 0 then 0 else (a % 2) * (b % 2) + 2 * And(a / 2, b / 2)
  }

  lemma {:induction false} AndAtMost(a: nat, b: nat)
    ensures And(a, b) <= a && And(a, b) <= b
    decreases a + b
  {
    if a != 0 && b != 0 {
      AndAtMost(a / 2, b / 2);
    }
  }

  /** Turns the lowest one bit into a zero. */
  function InvertLowestOne(n: nat): nat {
    if n == 0 then 0 else And(n, n - 1)
  }

  function GetSkipHeight(height: nat): (h: nat)
    ensures height > 0 ==> h < height
    ensures height == 0 ==> h == 0
  {
    if height < 2 then 0
    else if height % 2 == 1 then
      AndAtMost(height - 1, height - 2);
      var once := InvertLowestOne(height - 1);
      if once > 0 then
        AndAtMost(once, once - 1);
        InvertLowestOne(once) + 1
      else InvertLowestOne(once) + 1
    else
      AndAtMost(height, height - 1);
      InvertLowestOne(height)
  }

  // ---------------------------------------------------------------- blocks

  class BlockIndex {
    const pprev: BlockIndex?
    const nHeight: nat
    var pskip: BlockIndex?

    /** Heights count the blocks back to a genesis block. */
    ghost predicate Linked()
      decreases nHeight
    {
      if pprev == null then nHeight == 0
      else nHeight == pprev.nHeight + 1 && pprev.Linked()
    }

    /** The walk along parents. */
    ghost function Ancestor(height: nat): (b: BlockIndex)
      requires Linked() && height <= nHeight
      ensures b.Linked() && b.nHeight == height
      decreases nHeight
    {
      if height == nHeight then this else pprev.Ancestor(height)
    }

    ghost function Lineage(): set<BlockIndex>
      requires Linked()
      decreases nHeight
    {
      {this} + if pprev == null then {} else pprev.Lineage()
    }

    /** Every skip pointer in the lineage that is set leads to its intended ancestor. */
    ghost predicate SkipsOk()
      requires Linked()
      reads Lineage()
    {
      forall b :: b in Lineage() ==>
        b.Linked() && (b.pskip == null || b.pskip == b.Ancestor(GetSkipHeight(b.nHeight)))
    }

    constructor (prev: BlockIndex?)
      requires prev != null ==> prev.Linked() && prev.SkipsOk()
      ensures pprev == prev && Linked() && SkipsOk()
    {
      pprev := prev;
      nHeight := if prev == null then 0 else prev.nHeight + 1;
      pskip := null;
      new;
      if prev != null {
        LineageBelow();
        assert prev.SkipsOk();
      }
    }

    lemma {:induction false} AncestorOfAncestor(h1: nat, h2: nat)
      requires Linked() && h2 <= h1 <= nHeight
      ensures Ancestor(h1).Ancestor(h2) == Ancestor(h2)
      decreases nHeight
    {
      if h1 < nHeight {
        pprev.AncestorOfAncestor(h1, h2);
      }
    }

    lemma {:induction false} SkipsOfAncestor(height: nat)
      requires Linked() && height <= nHeight
      ensures Ancestor(height) in Lineage() && Ancestor(height).Lineage() <= Lineage()
      ensures SkipsOk() ==> Ancestor(height).SkipsOk()
      decreases nHeight
    {
      if height < nHeight {
        pprev.SkipsOfAncestor(height);
      }
    }

    /** The ancestor at a height, through skip pointers where that helps; null if there is none. */
    method GetAncestor(height: int) returns (r: BlockIndex?)
      requires Linked() && SkipsOk()
      ensures r == null <==> height < 0 || height > nHeight
      ensures r != null ==> r == Ancestor(height)
      ensures SkipsOk()
    {
      if height > nHeight || height < 0 {
        return null;
      }
      var pindexWalk: BlockIndex := this;
      var heightWalk := nHeight;
      while heightWalk > height
        invariant height <= heightWalk == pindexWalk.nHeight <= nHeight
        invariant pindexWalk == Ancestor(heightWalk) && SkipsOk() && pindexWalk.SkipsOk()
      {
        var heightSkip := GetSkipHeight(heightWalk);
        var heightSkipPrev := GetSkipHeight(heightWalk - 1);
        if pindexWalk.pskip != null
           && (heightSkip == height
               || (heightSkip > height && !(heightSkipPrev < heightSkip - 2 && heightSkipPrev >= height))) {
          AncestorOfAncestor(heightWalk, heightSkip);
          pindexWalk.SkipsOfAncestor(heightSkip);
          pindexWalk := pindexWalk.pskip;
          heightWalk := heightSkip;
        } else {
          assert pindexWalk.pprev != null;
          AncestorOfAncestor(heightWalk, heightWalk - 1);
          assert pindexWalk.Ancestor(heightWalk - 1) == pindexWalk.pprev;
          pindexWalk := pindexWalk.pprev;
          heightWalk := heightWalk - 1;
        }
      }
      return pindexWalk;
    }

    /** Sets the skip pointer. */
    method BuildSkip()
      requires Linked() && SkipsOk()
      modifies this
      ensures SkipsOk()
      ensures pprev != null ==> pskip == Ancestor(GetSkipHeight(nHeight))
    {
      if pprev != null {
        LineageBelow();
        SkipsOfParent();
        hide Linked, GetSkipHeight;
        var skip := pprev.GetAncestor(GetSkipHeight(nHeight));
        pskip := skip;
        SkipsExtend();
      }
    }

    lemma SkipsOfParent()
      requires Linked() && pprev != null && SkipsOk()
      ensures pprev.Linked() && nHeight == pprev.nHeight + 1 && pprev.SkipsOk()
      ensures Ancestor(GetSkipHeight(nHeight)) == pprev.Ancestor(GetSkipHeight(nHeight))
    {
      hide GetSkipHeight;
    }

    lemma SkipsExtend()
      requires Linked() && pprev != null && pprev.SkipsOk()
      requires pskip == Ancestor(GetSkipHeight(nHeight))
      ensures SkipsOk()
    {
      hide GetSkipHeight;
    }

    lemma {:induction false} LineageHeights(b: BlockIndex)
      requires Linked() && b in Lineage()
      ensures b.Linked() && b.nHeight <= nHeight && b == Ancestor(b.nHeight)
      decreases nHeight
    {
      if b != this {
        pprev.LineageHeights(b);
      }
    }

    lemma LineageBelow()
      requires Linked() && pprev != null
      ensures this !in pprev.Lineage()
    {
      if this in pprev.Lineage() {
        pprev.LineageHeights(this);
      }
    }
  }

  // ---------------------------------------------------------------- common ancestors

  /** The two lineages have the same block at height `h`. */
  ghost predicate Common(a: BlockIndex, b: BlockIndex, h: nat)
    requires a.Linked() && b.Linked()
  {
    h <= a.nHeight && h <= b.nHeight && a.Ancestor(h) == b.Ancestor(h)
  }

  /** The highest block on both lineages, or null if they share none. */
  ghost predicate HighestCommon(a: BlockIndex, b: BlockIndex, r: BlockIndex?)
    requires a.Linked() && b.Linked()
  {
    if r == null then forall h: nat :: !Common(a, b, h)
    else
      && Common(a, b, r.nHeight) && a.Ancestor(r.nHeight) == r
      && forall h: nat :: Common(a, b, h) ==> h <= r.nHeight
  }

  /** Once two lineages meet they stay together. */
  lemma CommonBelow(a: BlockIndex, b: BlockIndex, h: nat, g: nat)
    requires a.Linked() && b.Linked() && Common(a, b, h) && g <= h
    ensures Common(a, b, g)
  {
    a.AncestorOfAncestor(h, g);
    b.AncestorOfAncestor(h, g);
  }

  /** The last common ancestor of two blocks. */
  method LastCommonAncestor(a: BlockIndex, b: BlockIndex) returns (r: BlockIndex?)
    requires a.Linked() && b.Linked() && a.SkipsOk() && b.SkipsOk()
    ensures HighestCommon(a, b, r)
  {
    var pa: BlockIndex?, pb: BlockIndex? := a, b;
    if a.nHeight > b.nHeight {
      pa := a.GetAncestor(b.nHeight);
    } else if b.nHeight > a.nHeight {
      pb := b.GetAncestor(a.nHeight);
    }
    while pa != pb && pa != null && pb != null
      invariant (pa == null) == (pb == null)
      invariant pa != null ==>
        && pa.Linked() && pb.Linked() && pa.nHeight == pb.nHeight
        && pa.nHeight <= a.nHeight && pb.nHeight <= b.nHeight
        && pa == a.Ancestor(pa.nHeight) && pb == b.Ancestor(pb.nHeight)
      invariant pa != null ==> forall h: nat :: Common(a, b, h) ==> h <= pa.nHeight
      invariant pa == null ==> forall h: nat :: !Common(a, b, h)
      decreases if pa == null then 0 else pa.nHeight + 1
    {
      assert !Common(a, b, pa.nHeight);
      if pa.nHeight > 0 {
        a.AncestorOfAncestor(pa.nHeight, pa.nHeight - 1);
        b.AncestorOfAncestor(pb.nHeight, pb.nHeight - 1);
        assert pa.Ancestor(pa.nHeight - 1) == pa.pprev && pb.Ancestor(pb.nHeight - 1) == pb.pprev;
      }
      pa := pa.pprev;
      pb := pb.pprev;
    }
    assert pa == pb;
    return pa;
  }

  // ---------------------------------------------------------------- the active chain

  class Chain {
    var vChain: seq<BlockIndex?>

    /** The vector holds, at each height, the ancestor of its last block. */
    ghost predicate Valid()
      reads this
    {
      forall i :: 0 <= i < |vChain| ==>
        && vChain[i] != null && vChain[i].Linked() && vChain[i].nHeight == i
        && (i > 0 ==> vChain[i].pprev == vChain[i - 1])
    }

    constructor ()
      ensures Valid() && vChain == []
    {
      vChain := [];
    }

    function Tip(): BlockIndex?
      reads this
    {
      if |vChain| > 0 then vChain[|vChain| - 1] else null
    }

    function Height(): int
      reads this
    {
      |vChain| - 1
    }

    function At(height: int): BlockIndex?
      reads this
    {
      if height < 0 || height >= |vChain| then null else vChain[height]
    }

    predicate Contains(pindex: BlockIndex)
      reads this
    {
      At(pindex.nHeight) == pindex
    }

    /** The successor in the chain, or null. */
    function Next(pindex: BlockIndex): BlockIndex?
      reads this
    {
      if Contains(pindex) then At(pindex.nHeight + 1) else null
    }

    /** A valid chain is the lineage of each of its blocks, up to that block. */
    lemma {:induction false} ChainIsLineage(i: nat, h: nat)
      requires Valid() && h <= i < |vChain|
      ensures vChain[i].Ancestor(h) == vChain[h]
      decreases i
    {
      if h < i {
        ChainIsLineage(i - 1, h);
      }
    }

    /** Next is the child of the block within the chain. */
    lemma NextIsChild(pindex: BlockIndex)
      requires Valid() && Contains(pindex)
      ensures Next(pindex) == null <==> pindex == Tip()
      ensures Next(pindex) != null ==> Next(pindex).pprev == pindex && Contains(Next(pindex))
    {
    }

    /** Makes the chain the lineage of a block, overwriting only where it differs. */
    method SetTip(tip: BlockIndex?)
      requires Valid() && (tip != null ==> tip.Linked())
      modifies this
      ensures Valid() && Tip() == tip
      ensures tip == null ==> vChain == []
      ensures tip != null ==>
        |vChain| == tip.nHeight + 1 && forall h :: 0 <= h <= tip.nHeight ==> vChain[h] == tip.Ancestor(h)
    {
      if tip == null {
        vChain := [];
        return;
      }
      var size := tip.nHeight + 1;
      vChain := if |vChain| >= size then vChain[..size] else vChain + seq(size - |vChain|, i => null);
      ghost var before := vChain;
      var pindex: BlockIndex? := tip;
      while pindex != null && vChain[pindex.nHeight] != pindex
        invariant |vChain| == size == |before|
        invariant pindex != null ==>
          pindex.Linked() && pindex.nHeight <= tip.nHeight && pindex == tip.Ancestor(pindex.nHeight)
        invariant
          var done := if pindex == null then 0 else pindex.nHeight + 1;
          && (forall h :: 0 <= h < done ==> vChain[h] == before[h])
          && (forall h :: done <= h < size ==> vChain[h] == tip.Ancestor(h))
        decreases if pindex == null then 0 else pindex.nHeight + 1
      {
        if pindex.nHeight > 0 {
          tip.AncestorOfAncestor(pindex.nHeight, pindex.nHeight - 1);
          assert pindex.Ancestor(pindex.nHeight - 1) == pindex.pprev;
        }
        vChain := vChain[pindex.nHeight := pindex];
        pindex := pindex.pprev;
      }
      if pindex != null {
        KeptPrefix(old(vChain), pindex.nHeight, tip);
        assert forall h :: 0 <= h <= pindex.nHeight ==> vChain[h] == old(vChain)[h];
      }
      LineageIsValid(vChain, tip);
    }

    /** The last block of a lineage that is in the chain; null if none is. */
    method FindFork(block: BlockIndex?) returns (r: BlockIndex?)
      requires Valid() && (block != null ==> block.Linked() && block.SkipsOk())
      ensures block == null || vChain == [] ==> r == null
      ensures block != null && vChain != [] ==> HighestCommon(block, Tip(), r)
    {
      if block == null {
        return null;
      }
      var pindex: BlockIndex? := block;
      if pindex.nHeight > Height() {
        pindex := pindex.GetAncestor(Height());
      }
      if vChain == [] {
        return null;
      }
      ghost var tip := Tip();
      hide BlockIndex.SkipsOk, BlockIndex.Lineage;
      while pindex != null && !Contains(pindex)
        invariant pindex != null ==>
          && pindex.Linked() && pindex.nHeight <= block.nHeight && pindex.nHeight <= tip.nHeight
          && pindex == block.Ancestor(pindex.nHeight)
          && forall h: nat :: Common(block, tip, h) ==> h <= pindex.nHeight
        invariant pindex == null ==> forall h: nat :: !Common(block, tip, h)
        decreases if pindex == null then 0 else pindex.nHeight + 1
      {
        ChainIsLineage(|vChain| - 1, pindex.nHeight);
        assert !Common(block, tip, pindex.nHeight);
        if pindex.nHeight > 0 {
          block.AncestorOfAncestor(pindex.nHeight, pindex.nHeight - 1);
          assert pindex.Ancestor(pindex.nHeight - 1) == pindex.pprev;
        }
        pindex := pindex.pprev;
      }
      if pindex != null {
        ChainIsLineage(|vChain| - 1, pindex.nHeight);
      }
      return pindex;
    }
  }

  /** Where the old chain already has a block, it has the block's whole lineage. */
  lemma {:induction false} KeptPrefix(old_: seq<BlockIndex?>, k: nat, tip: BlockIndex)
    requires k < |old_| && tip.Linked() && k <= tip.nHeight && old_[k] == tip.Ancestor(k)
    requires forall i :: 0 <= i <= k ==>
      && old_[i] != null && old_[i].Linked() && old_[i].nHeight == i
      && (i > 0 ==> old_[i].pprev == old_[i - 1])
    ensures forall h :: 0 <= h <= k ==> old_[h] == tip.Ancestor(h)
  {
    if k > 0 {
      tip.AncestorOfAncestor(k, k - 1);
      assert old_[k].Ancestor(k - 1) == old_[k].pprev;
      KeptPrefix(old_, k - 1, tip);
    }
  }

  lemma LineageIsValid(blocks: seq<BlockIndex?>, tip: BlockIndex)
    requires tip.Linked() && |blocks| == tip.nHeight + 1
    requires forall h :: 0 <= h <= tip.nHeight ==> blocks[h] == tip.Ancestor(h)
    ensures forall i :: 0 <= i < |blocks| ==>
      && blocks[i] != null && blocks[i].Linked() && blocks[i].nHeight == i
      && (i > 0 ==> blocks[i].pprev == blocks[i - 1])
  {
    forall i | 0 < i < |blocks|
      ensures blocks[i].pprev == blocks[i - 1]
    {
      tip.AncestorOfAncestor(i, i - 1);
      assert blocks[i].Ancestor(i - 1) == blocks[i].pprev;
    }
  }
}
