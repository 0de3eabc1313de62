/** The size of a serialized partial Merkle tree, and when the documented guarantee on it holds. */
module MerkleWire {
  import opened MerkleProofs
  import opened MerkleSizes
  import opened MerkleTree
  import opened Powers

  /** Bytes of a length prefix. */
  function PrefixSize(n: nat): nat {
    if n < 253 then 1 else if n <= 0xffff then 3 else if n <= 0xffff_ffff then 5 else 9
  }

  /** Bytes of a transaction count, the hashes and the packed bits, both with a length prefix. */
  function WireSize(tree: Tree): nat {
    4 + PrefixSize(|tree.hashes|) + 32 * |tree.hashes|
    + PrefixSize(Bytes(|tree.bits|)) + Bytes(|tree.bits|)
  }

  /** The documented `10 + ceil(32.25 * N)`. */
  function Guarantee(hashes: nat): nat {
    10 + (129 * hashes + 3) / 4
  }

  /** The bits fill a byte more than `2 * N - 1` would, and their byte count takes a long prefix. */
  predicate Overflows(hashes: nat, edges: nat) {
    (2 * hashes + 6) % 8 + edges >= 8 && 2 * hashes + 6 + edges >= 8 * 253
  }

  lemma HeightBound(n: nat, h: nat)
    requires 0 < n <= Pow2(h)
    ensures Height(n) <= h
  {
    hide Width, Pow2;
    WidthCovers(n, h, 1);
  }

  lemma MostTransactions(n: nat)
    requires 0 < n <= MAX_TRANSACTIONS
    ensures Height(n) <= 15
  {
    hide Height;
    assert Pow2(5) == 32;
    assert Pow2(10) == 1024;
    assert Pow2(15) == 32768;
    HeightBound(n, 15);
  }

  /** The bits of an encoding, from its hashes and the single children it descends through. */
  lemma BitsCount(hash: Hasher, txids: seq<Digest>, mask: seq<bool>)
    requires |txids| == |mask| > 0
    ensures
      var tree, edges := Build(hash, txids, mask), Edges(mask, Height(|mask|));
      && 1 <= |tree.hashes| <= |mask|
      && |tree.bits| == 2 * |tree.hashes| - 1 + edges
      && edges <= Height(|mask|)
  {
    hide Width, Parent, EdgeMatch, Bits, Hashes, Height;
    var n := |mask|;
    RootExists(n);
    var h := Height(n);
    BitsExact(hash, txids, mask, h, 0);
    OneChildBound(mask, h, 0);
    OneChildCounts(mask, h);
    HashesAtMostLeaves(hash, txids, mask, h, 0);
  }

  lemma Compared(hashes: nat, edges: nat, bytes: nat)
    requires 1 <= hashes <= MAX_TRANSACTIONS && edges <= 15
    requires bytes == Bytes(2 * hashes - 1 + edges)
    ensures 4 + PrefixSize(hashes) + 32 * hashes + PrefixSize(bytes) + bytes <= Guarantee(hashes)
       <==> !Overflows(hashes, edges)
  {
    var q := (2 * hashes + 6) / 8;
    assert q == (hashes + 3) / 4;
    assert Guarantee(hashes) == 10 + 32 * hashes + q;
    assert bytes == q + ((2 * hashes + 6) % 8 + edges) / 8;
  }

  /**
   Of the encoding of any block's transactions, with `N` hashes and `e` heights that end in a
   single child with a match below its parent: the size is at most `10 + ceil(32.25 * N)`
   exactly when the `e` extra bits do not spill into a further byte, or the bytes of bits are
   fewer than 253.
   */
  lemma DocumentedSize(hash: Hasher, txids: seq<Digest>, mask: seq<bool>)
    requires 0 < |txids| == |mask| <= MAX_TRANSACTIONS
    ensures
      var tree, edges := Build(hash, txids, mask), Edges(mask, Height(|mask|));
      WireSize(tree) <= Guarantee(|tree.hashes|) <==> !Overflows(|tree.hashes|, edges)
  {
    hide Height, Build, Edges, Bytes, PrefixSize, Guarantee, Overflows;
    var tree, edges := Build(hash, txids, mask), Edges(mask, Height(|mask|));
    BitsCount(hash, txids, mask);
    MostTransactions(|mask|);
    Compared(|tree.hashes|, edges, Bytes(|tree.bits|));
  }

  // ---------------------------------------------------------------- where it does not hold

  predicate AllMatched(mask: seq<bool>) {
    forall i :: 0 <= i < |mask| ==> mask[i]
  }

  lemma ParentOfAll(mask: seq<bool>, h: nat, pos: nat)
    requires AllMatched(mask) && pos < Width(|mask|, h)
    ensures Parent(mask, h, pos)
  {
    hide Width;
    WidthCovers(|mask|, h, pos);
    FirstIs(h, pos);
    FirstBeforeLast(|mask|, h, pos);
    assert mask[First(h, pos)];
  }

  /** With every transaction matched, every one of them is stored. */
  lemma {:induction false} AllLeavesStored(hash: Hasher, txids: seq<Digest>, mask: seq<bool>, h: nat, pos: nat)
    requires |txids| == |mask| && AllMatched(mask) && pos < Width(|mask|, h)
    ensures |Hashes(hash, txids, mask, h, pos)| == Last(|mask|, h, pos) - First(h, pos)
    decreases h
  {
    hide Width, First, Last, Parent, CalcHash, AllMatched;
    var n := |mask|;
    if h == 0 {
      OneLeaf(n, pos);
    } else {
      ParentOfAll(mask, h, pos);
      Children(n, h - 1, pos);
      Leaves(n, h - 1, pos);
      AllLeavesStored(hash, txids, mask, h - 1, 2 * pos);
      if 2 * pos + 1 < Width(n, h - 1) {
        AllLeavesStored(hash, txids, mask, h - 1, 2 * pos + 1);
      }
    }
  }

  lemma OneLeaf(n: nat, pos: nat)
    requires pos < Width(n, 0)
    ensures Last(n, 0, pos) == First(0, pos) + 1
  {
    WidthCovers(n, 0, pos);
  }

  lemma WholeTree(n: nat, h: nat)
    requires Width(n, h) == 1
    ensures First(h, 0) == 0 && Last(n, h, 0) == n
  {
    hide Width;
    WidthCovers(n, h, 1);
  }

  lemma WidthsOf1012()
    ensures Width(1012, 0) == 1012 && Width(1012, 1) == 506 && Width(1012, 2) == 253
    ensures Width(1012, 3) == 127 && Width(1012, 4) == 64 && Width(1012, 5) == 32
    ensures Width(1012, 6) == 16 && Width(1012, 7) == 8 && Width(1012, 8) == 4
    ensures Width(1012, 9) == 2 && Width(1012, 10) == 1
  {
    hide Width;
    WidthStart(1012);
    WidthHalves(1012, 0); WidthHalves(1012, 1); WidthHalves(1012, 2); WidthHalves(1012, 3);
    WidthHalves(1012, 4); WidthHalves(1012, 5); WidthHalves(1012, 6); WidthHalves(1012, 7);
    WidthHalves(1012, 8); WidthHalves(1012, 9);
  }

  lemma HeightOf1012()
    ensures Height(1012) == 10
  {
    hide Width;
    WidthsOf1012();
    var h := Height(1012);
    assert Width(1012, h) <= 1;
    assert forall k :: 0 <= k < h ==> Width(1012, k) > 1;
  }

  lemma EdgeOfAll(mask: seq<bool>, g: nat)
    requires g > 0 && AllMatched(mask) && |mask| > 0
    ensures EdgeMatch(mask, g) <==> Width(|mask|, g - 1) % 2 == 1
  {
    hide Width, Parent;
    if Width(|mask|, g - 1) % 2 == 1 {
      WidthPositive(|mask|, g);
      ParentOfAll(mask, g, Width(|mask|, g) - 1);
    }
  }

  lemma EdgesOf1012(mask: seq<bool>)
    requires |mask| == 1012 && AllMatched(mask)
    ensures Edges(mask, 10) == 2
  {
    hide Width, EdgeMatch, AllMatched;
    WidthsOf1012();
    EdgeOfAll(mask, 1); EdgeOfAll(mask, 2); EdgeOfAll(mask, 3); EdgeOfAll(mask, 4); EdgeOfAll(mask, 5);
    EdgeOfAll(mask, 6); EdgeOfAll(mask, 7); EdgeOfAll(mask, 8); EdgeOfAll(mask, 9); EdgeOfAll(mask, 10);
    assert Edges(mask, 0) == 0;
    assert Edges(mask, 1) == 0;
    assert Edges(mask, 2) == 0;
    assert Edges(mask, 3) == 1;
    assert Edges(mask, 4) == 2;
    assert Edges(mask, 6) == 2;
    assert Edges(mask, 8) == 2;
  }

  /** A block of 1012 transactions, all matched, takes one byte more than the guarantee. */
  lemma DocumentedSizeFails(hash: Hasher, txids: seq<Digest>, mask: seq<bool>)
    requires |txids| == |mask| == 1012 && AllMatched(mask)
    ensures WireSize(Build(hash, txids, mask)) == Guarantee(|Build(hash, txids, mask).hashes|) + 1
  {
    hide Width, Height, Bits, Hashes, Edges, AllMatched;
    RootExists(1012);
    HeightOf1012();
    EdgesOf1012(mask);
    BitsCount(hash, txids, mask);
    AllLeavesStored(hash, txids, mask, Height(1012), 0);
    WholeTree(1012, Height(1012));
  }
}
