/**
 The Merkle root as the level-by-level reduction of the transactions, and what equal siblings in
 the tree mean: a block with its tail repeated has the same root, and its proofs are refused.
 */
module MerkleRoots {
  import opened MerkleProofs
  import opened MerkleTree

  // ---------------------------------------------------------------- level by level

  /** Neighbours hashed left with right; an odd last one with itself. */
  function Reduced(hash: Hasher, level: seq<Digest>): (r: seq<Digest>)
    ensures |r| == (|level| + 1) / 2
  {
    seq((|level| + 1) / 2, i requires 0 <= i < (|level| + 1) / 2 =>
      hash(level[2 * i], if 2 * i + 1 < |level| then level[2 * i + 1] else level[2 * i]))
  }

  function MerkleRoot(hash: Hasher, level: seq<Digest>): Digest
    requires |level| > 0
    decreases |level|
  {
    if |level| == 1 then level[0] else MerkleRoot(hash, Reduced(hash, level))
  }

  /** All nodes of one height. */
  function Nodes(hash: Hasher, txids: seq<Digest>, h: nat): (r: seq<Digest>)
    ensures |r| == Width(|txids|, h)
  {
    seq(Width(|txids|, h), pos requires 0 <= pos < Width(|txids|, h) => CalcHash(hash, txids, h, pos))
  }

  lemma NodesReduced(hash: Hasher, txids: seq<Digest>, h: nat)
    ensures Nodes(hash, txids, h + 1) == Reduced(hash, Nodes(hash, txids, h))
  {
    hide Width;
    WidthHalves(|txids|, h);
    var level := Nodes(hash, txids, h);
    forall pos | 0 <= pos < Width(|txids|, h + 1)
      ensures Nodes(hash, txids, h + 1)[pos] == Reduced(hash, level)[pos]
    {
      Children(|txids|, h, pos);
    }
  }

  lemma NodesAtZero(hash: Hasher, txids: seq<Digest>)
    ensures Nodes(hash, txids, 0) == txids
  {
    WidthStart(|txids|);
  }

  lemma {:induction false} RootFrom(hash: Hasher, txids: seq<Digest>, h: nat)
    requires |txids| > 0 && h <= Height(|txids|)
    ensures Width(|txids|, h) > 0 && MerkleRoot(hash, Nodes(hash, txids, h)) == Root(hash, txids)
    decreases Height(|txids|) - h
  {
    hide Width, CalcHash, Reduced;
    RootExists(|txids|);
    if h < Height(|txids|) {
      RootFrom(hash, txids, h + 1);
      NodesReduced(hash, txids, h);
      assert Width(|txids|, h) > 1;
    }
  }

  /** The root of the recursive tree is what reducing the list of ids level by level leaves. */
  lemma RootIsReduction(hash: Hasher, txids: seq<Digest>)
    requires |txids| > 0
    ensures Root(hash, txids) == MerkleRoot(hash, txids)
  {
    hide Root, MerkleRoot, Nodes, Height;
    NodesAtZero(hash, txids);
    RootFrom(hash, txids, 0);
  }

  /** Repeating the last of an odd number of transactions does not change the root. */
  lemma RepeatedLast(hash: Hasher, txids: seq<Digest>)
    requires |txids| % 2 == 1 && |txids| > 1
    ensures Root(hash, txids + [txids[|txids| - 1]]) == Root(hash, txids)
  {
    hide Root, Reduced;
    RootIsReduction(hash, txids);
    RootIsReduction(hash, txids + [txids[|txids| - 1]]);
    ReducedSame(hash, txids);
  }

  lemma ReducedSame(hash: Hasher, txids: seq<Digest>)
    requires |txids| % 2 == 1
    ensures Reduced(hash, txids + [txids[|txids| - 1]]) == Reduced(hash, txids)
  {
    var longer := txids + [txids[|txids| - 1]];
    forall i | 0 <= i < (|txids| + 1) / 2
      ensures Reduced(hash, longer)[i] == Reduced(hash, txids)[i]
    {
      assert longer[2 * i] == txids[2 * i];
    }
  }

  // ---------------------------------------------------------------- equal siblings

  /** The two children of a node with a match below it have the same hash. */
  ghost predicate EqualChildren(hash: Hasher, txids: seq<Digest>, mask: seq<bool>, h: nat, pos: nat)
    requires |txids| == |mask|
  {
    && 2 * pos + 1 < Width(|txids|, h) && Parent(mask, h + 1, pos)
    && CalcHash(hash, txids, h, 2 * pos) == CalcHash(hash, txids, h, 2 * pos + 1)
  }

  lemma {:induction false} TwinsRise(hash: Hasher, txids: seq<Digest>, mask: seq<bool>, h: nat, pos: nat, top: nat)
    requires |txids| == |mask| && pos < Width(|mask|, h) && Twins(hash, txids, mask, h, pos)
    requires h <= top && Width(|mask|, top) == 1
    ensures Twins(hash, txids, mask, top, 0)
    decreases top - h
  {
    hide Width, Parent, CalcHash;
    if h < top {
      var n := |mask|;
      WidthHalves(n, h);
      ParentSplits(mask, h, pos / 2);
      TwinsRise(hash, txids, mask, h + 1, pos / 2, top);
    }
  }

  lemma {:induction false} TwinsAt(hash: Hasher, txids: seq<Digest>, mask: seq<bool>, h: nat, pos: nat)
      returns (g: nat, q: nat)
    requires |txids| == |mask| && pos < Width(|mask|, h) && Twins(hash, txids, mask, h, pos)
    ensures EqualChildren(hash, txids, mask, g, q)
    decreases h
  {
    hide Width, Parent, CalcHash;
    Children(|mask|, h - 1, pos);
    if Twins(hash, txids, mask, h - 1, 2 * pos) {
      g, q := TwinsAt(hash, txids, mask, h - 1, 2 * pos);
    } else if Twins(hash, txids, mask, h - 1, 2 * pos + 1) {
      g, q := TwinsAt(hash, txids, mask, h - 1, 2 * pos + 1);
    } else {
      g, q := h - 1, pos;
    }
  }

  lemma EqualChildrenRise(hash: Hasher, txids: seq<Digest>, mask: seq<bool>, h: nat, pos: nat)
    requires |txids| == |mask| > 0 && EqualChildren(hash, txids, mask, h, pos)
    ensures Width(|mask|, Height(|mask|)) == 1 && Twins(hash, txids, mask, Height(|mask|), 0)
  {
    hide Width, Parent, CalcHash;
    var n := |mask|;
    RootExists(n);
    WidthHalves(n, h);
    NotAboveRoot(n, h);
    TwinsRise(hash, txids, mask, h + 1, pos, Height(n));
  }

  lemma NotAboveRoot(n: nat, h: nat)
    requires n > 0 && Width(n, h) > 1
    ensures h < Height(n)
  {
    hide Width;
    RootExists(n);
    if h >= Height(n) {
      WidthShrinks(n, Height(n), h);
    }
  }

  lemma {:induction false} WidthShrinks(n: nat, g: nat, h: nat)
    requires g <= h && Width(n, g) <= 1
    ensures Width(n, h) <= 1
  {
    hide Width;
    if g < h {
      WidthShrinks(n, g, h - 1);
      WidthHalves(n, h - 1);
    }
  }

  /**
   A tree built from any transactions, distinct or not, is accepted exactly when no node that has
   a match below it has two equal children.
   */
  lemma BuiltAcceptedIff(hash: Hasher, txids: seq<Digest>, mask: seq<bool>, tree: Tree)
    requires 0 < |txids| == |mask| <= MAX_TRANSACTIONS && Padded(Build(hash, txids, mask), tree)
    ensures Accepts(hash, tree) <==> forall h, pos :: !EqualChildren(hash, txids, mask, h, pos)
  {
    hide Accepts, Padded, Build, EqualChildren, Twins;
    BuiltTraversal(hash, txids, mask, tree);
    if Twins(hash, txids, mask, Height(|mask|), 0) {
      var g, q := TwinsAt(hash, txids, mask, Height(|mask|), 0);
    } else {
      forall h: nat, pos: nat
        ensures !EqualChildren(hash, txids, mask, h, pos)
      {
        if EqualChildren(hash, txids, mask, h, pos) {
          EqualChildrenRise(hash, txids, mask, h, pos);
        }
      }
    }
  }

  /** So a block with its last transaction repeated proves the same root, but not that transaction. */
  lemma RepeatedLastRefused(hash: Hasher, txids: seq<Digest>, mask: seq<bool>)
    requires |txids| % 2 == 1 && 1 < |txids| < MAX_TRANSACTIONS && |mask| == |txids| + 1
    requires mask[|txids| - 1] || mask[|txids|]
    ensures
      var longer := txids + [txids[|txids| - 1]];
      Root(hash, longer) == Root(hash, txids) && !Accepts(hash, Build(hash, longer, mask))
  {
    hide Accepts, Build, Root;
    var longer, h := txids + [txids[|txids| - 1]], |txids| / 2;
    RepeatedLast(hash, txids);
    BuiltAcceptedIff(hash, longer, mask, Build(hash, longer, mask)) by { PaddedSelf(hash, longer, mask); }
    LastPair(longer, mask, h);
    assert EqualChildren(hash, longer, mask, 0, h);
  }

  lemma PaddedSelf(hash: Hasher, txids: seq<Digest>, mask: seq<bool>)
    requires |txids| == |mask| > 0
    ensures Padded(Build(hash, txids, mask), Build(hash, txids, mask))
  {
  }

  lemma LastPair(txids: seq<Digest>, mask: seq<bool>, pos: nat)
    requires |txids| == |mask| == 2 * pos + 2 && (mask[2 * pos] || mask[2 * pos + 1])
    ensures 2 * pos + 1 < Width(|txids|, 0) && Parent(mask, 1, pos)
  {
    WidthCovers(|txids|, 0, 2 * pos + 1);
    WidthCovers(|txids|, 1, pos);
    assert First(1, pos) == 2 * pos && Last(|mask|, 1, pos) == 2 * pos + 2;
  }

  // ---------------------------------------------------------------- nothing left over

  /** A good reading is the same whatever follows in the bits and hashes. */
  lemma {:induction false} ExtractPrefix(hash: Hasher, n: nat, bits: seq<bool>, hashes: seq<Digest>,
                                         moreBits: seq<bool>, moreHashes: seq<Digest>,
                                         h: nat, pos: nat, b: nat, k: nat)
    requires !Extract(hash, n, bits, hashes, h, pos, b, k).bad
    ensures Extract(hash, n, bits + moreBits, hashes + moreHashes, h, pos, b, k)
         == Extract(hash, n, bits, hashes, h, pos, b, k)
    decreases h
  {
    hide Width;
    if h > 0 && bits[b] {
      var l := Extract(hash, n, bits, hashes, h - 1, 2 * pos, b + 1, k);
      ExtractPrefix(hash, n, bits, hashes, moreBits, moreHashes, h - 1, 2 * pos, b + 1, k);
      if 2 * pos + 1 < Width(n, h - 1) {
        ExtractPrefix(hash, n, bits, hashes, moreBits, moreHashes, h - 1, 2 * pos + 1, l.bits, l.hashes);
      }
    }
  }

  /** An accepted tree cannot carry one hash or one byte of bits more. */
  lemma NothingLeftOver(hash: Hasher, tree: Tree, moreBits: seq<bool>, moreHashes: seq<Digest>)
    requires Accepts(hash, tree)
    requires moreHashes != [] || (|tree.bits| + |moreBits| + 7) / 8 > (|tree.bits| + 7) / 8
    ensures !Accepts(hash, tree.(bits := tree.bits + moreBits, hashes := tree.hashes + moreHashes))
  {
    hide Extract;
    ExtractPrefix(hash, tree.n, tree.bits, tree.hashes, moreBits, moreHashes, Height(tree.n), 0, 0, 0);
  }

  /** Trees of no transactions, or of more than a block can hold, are refused. */
  lemma SizesRefused(hash: Hasher, tree: Tree)
    requires tree.n == 0 || tree.n > 25000 || tree.bad
    ensures !Accepts(hash, tree)
  {
    hide Extract;
  }
}
