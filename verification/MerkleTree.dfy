/**
 The partial Merkle tree object: building it from a block, extracting the matches, and the
 byte-packed flag bits of its serialization.
 */
module MerkleTree {
  import opened MerkleProofs
  import opened Powers
  import opened MerkleSizes

  const MAX_BLOCK_WEIGHT: nat := 6000000
  const MIN_TRANSACTION_WEIGHT: nat := 240
  const MAX_TRANSACTIONS: nat := MAX_BLOCK_WEIGHT / MIN_TRANSACTION_WEIGHT

  datatype Tree = Tree(n: nat, bits: seq<bool>, hashes: seq<Digest>, bad: bool)

  ghost function Build(hash: Hasher, txids: seq<Digest>, mask: seq<bool>): Tree
    requires |txids| == |mask| > 0
  {
    RootExists(|txids|);
    var h := Height(|txids|);
    Tree(|txids|, Bits(mask, h, 0), Hashes(hash, txids, mask, h, 0), false)
  }

  function Root(hash: Hasher, txids: seq<Digest>): Digest
    requires |txids| > 0
  {
    RootExists(|txids|);
    CalcHash(hash, txids, Height(|txids|), 0)
  }

  /** The counts are acceptable before any traversal is made. */
  predicate Plausible(tree: Tree) {
    && tree.n != 0 && tree.n <= MAX_TRANSACTIONS
    && |tree.hashes| <= tree.n && |tree.hashes| <= |tree.bits|
  }

  function Bytes(bits: nat): nat {
    (bits + 7) / 8
  }

  /** The traversal met no problem and used up all bits, but for padding, and all hashes. */
  predicate Consumed(tree: Tree, r: Reading) {
    !tree.bad && !r.bad && Bytes(r.bits) == Bytes(|tree.bits|) && r.hashes == |tree.hashes|
  }

  function Traversal(hash: Hasher, tree: Tree): Reading {
    Extract(hash, tree.n, tree.bits, tree.hashes, Height(tree.n), 0, 0, 0)
  }

  predicate Accepts(hash: Hasher, tree: Tree) {
    Plausible(tree) && Consumed(tree, Traversal(hash, tree))
  }

  /**
   Soundness: for arbitrary bits and hashes, if extraction succeeds with the block's true root,
   every transaction it returns is the block's own at the returned index. The number of
   transactions is not covered by the root: a false one of the same height gets nothing past a
   block of distinct transactions, in particular no index at or beyond its length.
   */
  lemma ExtractionSound(hash: Hasher, txids: seq<Digest>, tree: Tree)
    requires Injective(hash) && |txids| > 0 && Height(tree.n) == Height(|txids|)
    requires tree.n == |txids| || Distinct(txids)
    requires Accepts(hash, tree) && Traversal(hash, tree).hash == Root(hash, txids)
    ensures Genuine(txids, Traversal(hash, tree).found, 0, |txids|)
  {
    hide Injective, Genuine, Extract, Distinct;
    RootExists(|txids|);
    var h := Height(|txids|);
    ExtractSound(hash, txids, tree.n, tree.bits, tree.hashes, h, 0, 0, 0);
    RootCovers(|txids|);
  }

  lemma RootCovers(n: nat)
    requires n > 0
    ensures First(Height(n), 0) == 0 && Last(n, Height(n), 0) == n
  {
    RootExists(n);
    var h := Height(n);
    WidthCovers(n, h, 1);
    assert 1 * Pow2(h) == Pow2(h);
  }

  /** The tree with up to seven padding bits, as it comes back from its serialization. */
  ghost predicate Padded(tree: Tree, tree': Tree) {
    && tree'.n == tree.n && tree'.hashes == tree.hashes && tree'.bad == tree.bad
    && tree.bits <= tree'.bits && Bytes(|tree'.bits|) == Bytes(|tree.bits|)
  }

  /** What is built from any transactions and any mask is read as it was meant, padded or not. */
  lemma BuiltTraversal(hash: Hasher, txids: seq<Digest>, mask: seq<bool>, tree: Tree)
    requires 0 < |txids| == |mask| <= MAX_TRANSACTIONS
    requires Padded(Build(hash, txids, mask), tree)
    ensures Width(|mask|, Height(|mask|)) == 1
    ensures Accepts(hash, tree) <==> !Twins(hash, txids, mask, Height(|mask|), 0)
    ensures Traversal(hash, tree).hash == Root(hash, txids)
    ensures Traversal(hash, tree).found == Matches(txids, mask, 0, |txids|)
  {
    hide Extract, Bits, Hashes, CalcHash, Matches, Twins;
    RootExists(|txids|);
    var h := Height(|txids|);
    var built := Build(hash, txids, mask);
    var bits, hashes := Bits(mask, h, 0), Hashes(hash, txids, mask, h, 0);
    assert tree.bits[0..0 + |bits|] == bits;
    assert tree.hashes[0..0 + |hashes|] == hashes;
    ExtractBuilt(hash, txids, mask, tree.bits, tree.hashes, h, 0, 0, 0);
    RootCovers(|txids|);
    HashesAtMostLeaves(hash, txids, mask, h, 0);
    BitsExact(hash, txids, mask, h, 0);
  }

  /**
   Completeness: what is built from distinct transactions and any mask extracts, padded or
   not, to the true root and exactly the matched transactions with their indexes, in order.
   */
  lemma ExtractionComplete(hash: Hasher, txids: seq<Digest>, mask: seq<bool>, tree: Tree)
    requires Injective(hash) && Distinct(txids) && 0 < |txids| == |mask| <= MAX_TRANSACTIONS
    requires Padded(Build(hash, txids, mask), tree)
    ensures Accepts(hash, tree)
    ensures Traversal(hash, tree).hash == Root(hash, txids)
    ensures Traversal(hash, tree).found == Matches(txids, mask, 0, |txids|)
  {
    hide Injective, Distinct, Accepts, Traversal, Root, Matches, Padded, Build, Twins;
    BuiltTraversal(hash, txids, mask, tree);
    NoTwins(hash, txids, mask, Height(|mask|), 0);
  }

  /** The size guarantees: hashes are bounded by the transactions and by matches times height. */
  lemma BuildSizes(hash: Hasher, txids: seq<Digest>, mask: seq<bool>)
    requires |txids| == |mask| > 0
    ensures
      var tree, h := Build(hash, txids, mask), Height(|txids|);
      && |tree.hashes| <= |txids|
      && |tree.hashes| <= 1 + |Matches(txids, mask, 0, |txids|)| * h
      && |tree.bits| <= 2 * |tree.hashes| - 1 + h
  {
    hide Bits, Hashes, Matches;
    RootExists(|txids|);
    RootCovers(|txids|);
    var h := Height(|txids|);
    HashesAtMostLeaves(hash, txids, mask, h, 0);
    HashesAtMostMatches(hash, txids, mask, h, 0);
    DocumentedBits(hash, txids, mask);
  }

  // ---------------------------------------------------------------- flag bits in bytes

  function BitMask(k: nat): bv8
    requires k < 8
  {
    match k
    case 0 => 1
    case 1 => 2
    case 2 => 4
    case 3 => 8
    case 4 => 16
    case 5 => 32
    case 6 => 64
    case _ => 128
  }

  function Test(byte: bv8, k: nat): bool
    requires k < 8
  {
    byte & BitMask(k) != 0
  }

  lemma SetAndTest(byte: bv8, j: nat, k: nat)
    requires j < 8 && k < 8
    ensures Test(byte | BitMask(j), k) <==> k == j || Test(byte, k)
  {
    MaskCases(byte, BitMask(j), k);
    MasksDiffer(j, k);
  }

  lemma MaskCases(byte: bv8, mask: bv8, k: nat)
    requires k < 8
    ensures (byte | mask) & BitMask(k) != 0 <==> byte & BitMask(k) != 0 || mask & BitMask(k) != 0
  {
  }

  lemma MasksDiffer(j: nat, k: nat)
    requires j < 8 && k < 8
    ensures BitMask(j) & BitMask(k) != 0 <==> j == k
  {
  }

  /** Packs eight bits a byte, least significant first. */
  method PackBits(vBits: seq<bool>) returns (vBytes: seq<bv8>)
    ensures |vBytes| == Bytes(|vBits|)
    ensures forall p :: 0 <= p < 8 * |vBytes| ==> Test(vBytes[p / 8], p % 8) == (p < |vBits| && vBits[p])
  {
    vBytes := seq(Bytes(|vBits|), i => 0);
    ghost var size := |vBytes|;
    for p := 0 to |vBits|
      invariant |vBytes| == size
      invariant forall q :: 0 <= q < 8 * size ==> Test(vBytes[q / 8], q % 8) == (q < p && vBits[q])
    {
      ghost var before := vBytes;
      if vBits[p] {
        vBytes := vBytes[p / 8 := vBytes[p / 8] | BitMask(p % 8)];
      }
      forall q | 0 <= q < 8 * size
        ensures Test(vBytes[q / 8], q % 8) == (q < p + 1 && vBits[q])
      {
        if vBits[p] && q / 8 == p / 8 {
          SetAndTest(before[p / 8], p % 8, q % 8);
        }
      }
    }
  }

  function UnpackBits(bytes: seq<bv8>): (bits: seq<bool>)
    ensures |bits| == 8 * |bytes|
    ensures forall p :: 0 <= p < |bits| ==> bits[p] == Test(bytes[p / 8], p % 8)
  {
    seq(8 * |bytes|, p requires 0 <= p < 8 * |bytes| => Test(bytes[p / 8], p % 8))
  }

  // ---------------------------------------------------------------- the object

  class PartialMerkleTree {
    const hash: Hasher
    var nTransactions: nat
    var vBits: seq<bool>
    var vHash: seq<Digest>
    var fBad: bool

    function Value(): Tree
      reads this
    {
      Tree(nTransactions, vBits, vHash, fBad)
    }

    constructor (hash: Hasher, vTxid: seq<Digest>, vMatch: seq<bool>)
      requires |vTxid| == |vMatch| > 0
      ensures this.hash == hash && Value() == Build(hash, vTxid, vMatch)
    {
      this.hash := hash;
      nTransactions, fBad := |vTxid|, false;
      vBits, vHash := [], [];
      new;
      RootExists(|vTxid|);
      var nHeight := TreeHeight();
      TraverseAndBuild(nHeight, 0, vTxid, vMatch);
    }

    method TreeHeight() returns (nHeight: nat)
      ensures nHeight == Height(nTransactions)
    {
      nHeight := 0;
      while Width(nTransactions, nHeight) > 1
        invariant Height(nTransactions) == HeightFrom(nTransactions, nHeight)
        decreases Width(nTransactions, nHeight)
      {
        WidthHalves(nTransactions, nHeight);
        nHeight := nHeight + 1;
      }
    }

    method ParentOfMatch(height: nat, pos: nat, vMatch: seq<bool>) returns (found: bool)
      requires |vMatch| == nTransactions
      ensures found == Parent(vMatch, height, pos)
    {
      found := false;
      var p := pos * Pow2(height);
      while p < (pos + 1) * Pow2(height) && p < nTransactions
        invariant First(height, pos) <= p
        invariant p <= First(height, pos) || p <= Last(nTransactions, height, pos)
        invariant found <==> exists q :: First(height, pos) <= q < p && q < nTransactions && vMatch[q]
        decreases nTransactions - p
      {
        found := found || vMatch[p];
        p := p + 1;
      }
      LastBound(nTransactions, height, pos);
    }

    method TraverseAndBuild(height: nat, pos: nat, vTxid: seq<Digest>, vMatch: seq<bool>)
      requires |vTxid| == |vMatch| == nTransactions && pos < Width(nTransactions, height)
      modifies this`vBits, this`vHash
      ensures vBits == old(vBits) + Bits(vMatch, height, pos)
      ensures vHash == old(vHash) + Hashes(hash, vTxid, vMatch, height, pos)
      decreases height
    {
      hide Width, Parent, CalcHash;
      var fParentOfMatch := ParentOfMatch(height, pos, vMatch);
      vBits := vBits + [fParentOfMatch];
      if height == 0 || !fParentOfMatch {
        vHash := vHash + [CalcHash(hash, vTxid, height, pos)];
      } else {
        hide Bits, Hashes;
        Children(nTransactions, height - 1, pos);
        TraverseAndBuild(height - 1, 2 * pos, vTxid, vMatch);
        if 2 * pos + 1 < Width(nTransactions, height - 1) {
          TraverseAndBuild(height - 1, 2 * pos + 1, vTxid, vMatch);
        }
        BuildJoins(hash, vTxid, vMatch, height, pos, old(vBits), old(vHash));
      }
    }

    /** Reads one subtree; a problem is recorded in `fBad`, and the traversal goes on. */
    method TraverseAndExtract(height: nat, pos: nat, nBitsUsedIn: nat, nHashUsedIn: nat)
      returns (node: Digest, nBitsUsed: nat, nHashUsed: nat, found: seq<Found>)
      modifies this`fBad
      ensures
        var r := Extract(hash, nTransactions, vBits, vHash, height, pos, nBitsUsedIn, nHashUsedIn);
        && fBad == (old(fBad) || r.bad)
        && node == r.hash && nBitsUsed == r.bits && nHashUsed == r.hashes && found == r.found
      decreases height
    {
      hide Width;
      nBitsUsed, nHashUsed, found := nBitsUsedIn, nHashUsedIn, [];
      if nBitsUsed >= |vBits| {
        fBad := true;
        return 0, nBitsUsed, nHashUsed, found;
      }
      var fParentOfMatch := vBits[nBitsUsed];
      nBitsUsed := nBitsUsed + 1;
      if height == 0 || !fParentOfMatch {
        if nHashUsed >= |vHash| {
          fBad := true;
          return 0, nBitsUsed, nHashUsed, found;
        }
        node := vHash[nHashUsed];
        nHashUsed := nHashUsed + 1;
        if height == 0 && fParentOfMatch {
          found := [Found(node, pos)];
        }
      } else {
        var left, right, leftFound, rightFound;
        left, nBitsUsed, nHashUsed, leftFound := TraverseAndExtract(height - 1, 2 * pos, nBitsUsed, nHashUsed);
        found := leftFound;
        right := left;
        if 2 * pos + 1 < Width(nTransactions, height - 1) {
          right, nBitsUsed, nHashUsed, rightFound :=
            TraverseAndExtract(height - 1, 2 * pos + 1, nBitsUsed, nHashUsed);
          found := found + rightFound;
          if right == left {
            fBad := true;
          }
        }
        node := hash(left, right);
      }
    }

    /** The matches and the root; the root is zero on failure. */
    method ExtractMatches() returns (ok: bool, root: Digest, found: seq<Found>)
      modifies this`fBad
      ensures ok == Accepts(hash, old(Value()))
      ensures ok ==> root == Traversal(hash, old(Value())).hash && found == Traversal(hash, old(Value())).found
      ensures !ok ==> root == 0
    {
      hide Extract;
      found := [];
      if nTransactions == 0 {
        return false, 0, found;
      }
      if nTransactions > MAX_BLOCK_WEIGHT / MIN_TRANSACTION_WEIGHT {
        return false, 0, found;
      }
      if |vHash| > nTransactions {
        return false, 0, found;
      }
      if |vBits| < |vHash| {
        return false, 0, found;
      }
      var nHeight := TreeHeight();
      var nBitsUsed, nHashUsed;
      root, nBitsUsed, nHashUsed, found := TraverseAndExtract(nHeight, 0, 0, 0);
      if fBad {
        return false, 0, found;
      }
      if (nBitsUsed + 7) / 8 != (|vBits| + 7) / 8 {
        return false, 0, found;
      }
      if nHashUsed != |vHash| {
        return false, 0, found;
      }
      ok := true;
    }
  }

  /** An inner node's bits and hashes, appended piece by piece. */
  lemma BuildJoins(hash: Hasher, txids: seq<Digest>, mask: seq<bool>, h: nat, pos: nat,
                   bits: seq<bool>, hashes: seq<Digest>)
    requires |txids| == |mask| && pos < Width(|mask|, h) && h > 0 && Parent(mask, h, pos)
    ensures 2 * pos < Width(|mask|, h - 1)
    ensures
      var lb, lh := Bits(mask, h - 1, 2 * pos), Hashes(hash, txids, mask, h - 1, 2 * pos);
      if 2 * pos + 1 < Width(|mask|, h - 1) then
        var rb, rh := Bits(mask, h - 1, 2 * pos + 1), Hashes(hash, txids, mask, h - 1, 2 * pos + 1);
        && bits + [true] + lb + rb == bits + Bits(mask, h, pos)
        && hashes + lh + rh == hashes + Hashes(hash, txids, mask, h, pos)
      else
        && bits + [true] + lb == bits + Bits(mask, h, pos)
        && hashes + lh == hashes + Hashes(hash, txids, mask, h, pos)
  {
    hide Width, Parent, CalcHash;
    Children(|mask|, h - 1, pos);
  }

  /**
   The whole way of a proof: built from a block, packed into bytes, unpacked by the receiver,
   extracted. The receiver gets the root and exactly the matched transactions.
   */
  method SendProof(hash: Hasher, vTxid: seq<Digest>, vMatch: seq<bool>) returns (root: Digest, found: seq<Found>)
    requires Injective(hash) && Distinct(vTxid) && 0 < |vTxid| == |vMatch| <= MAX_TRANSACTIONS
    ensures root == Root(hash, vTxid)
    ensures found == Matches(vTxid, vMatch, 0, |vTxid|)
  {
    hide Injective, Distinct, Extract, Bits, Hashes, CalcHash, Matches, Accepts, Traversal;
    var sender := new PartialMerkleTree(hash, vTxid, vMatch);
    ghost var built := sender.Value();
    var vBytes := PackBits(sender.vBits);
    sender.vBits := UnpackBits(vBytes);
    assert built.bits <= sender.vBits by {
      forall p | 0 <= p < |built.bits|
        ensures sender.vBits[p] == built.bits[p]
      {
      }
    }
    ExtractionComplete(hash, vTxid, vMatch, sender.Value());
    var ok;
    ok, root, found := sender.ExtractMatches();
  }
}
