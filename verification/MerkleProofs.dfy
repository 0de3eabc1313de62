/**
 Partial Merkle trees as values: the tree over a block's transaction ids, the bits and hashes
 that encode a selection of them, and the traversal that reads such an encoding back.
 */
module MerkleProofs {
  import opened Powers

  type Digest = nat

  /** Hashing of a pair of digests. */
  type Hasher = (Digest, Digest) -> Digest

  ghost predicate Injective(hash: Hasher) {
    forall a, b, c, d :: hash(a, b) == hash(c, d) ==> a == c && b == d
  }

  // ---------------------------------------------------------------- the shape of the tree

  /** Number of nodes at a height of the tree over `n` leaves. */
  function Width(n: nat, h: nat): nat {
    (n + Pow2(h) - 1) / Pow2(h)
  }

  lemma WidthStart(n: nat)
    ensures Width(n, 0) == n
  {
  }

  /** A node exists exactly when its first leaf does. */
  lemma WidthCovers(n: nat, h: nat, pos: nat)
    ensures pos < Width(n, h) <==> pos * Pow2(h) < n
  {
    hide Width, Pow2;
    var d, w := Pow2(h), Width(n, h);
    WidthBounds(n, h);
    if pos < w { Scale(pos + 1, w, d); } else { Scale(w, pos, d); }
  }

  lemma WidthBounds(n: nat, h: nat)
    ensures Width(n, h) * Pow2(h) <= n + Pow2(h) - 1 < Width(n, h) * Pow2(h) + Pow2(h)
  {
    RoundedUp(n, Pow2(h));
  }

  lemma RoundedUp(n: nat, d: nat)
    requires d > 0
    ensures (n + d - 1) / d * d <= n + d - 1 < (n + d - 1) / d * d + d
  {
  }

  lemma Scale(a: nat, b: nat, d: nat)
    requires a <= b
    ensures a * d <= b * d && (a + 1) * d == a * d + d
  {
  }

  /** Children: the left one always exists, the right one when its first leaf does. */
  lemma Children(n: nat, h: nat, pos: nat)
    requires pos < Width(n, h + 1)
    ensures 2 * pos < Width(n, h)
    ensures 2 * pos + 1 < Width(n, h) <==> (2 * pos + 1) * Pow2(h) < n
    ensures 2 * pos * Pow2(h) == pos * Pow2(h + 1)
    ensures (2 * pos + 1) * Pow2(h) == pos * Pow2(h + 1) + Pow2(h)
  {
    WidthCovers(n, h + 1, pos);
    WidthCovers(n, h, 2 * pos);
    WidthCovers(n, h, 2 * pos + 1);
    assert pos * (2 * Pow2(h)) == 2 * pos * Pow2(h);
  }

  lemma WidthHalves(n: nat, h: nat)
    ensures Width(n, h + 1) == (Width(n, h) + 1) / 2
  {
    hide Width;
    var w, v := Width(n, h), Width(n, h + 1);
    if v > 0 {
      Children(n, h, v - 1);
    }
    WidthCovers(n, h + 1, v);
    WidthCovers(n, h, 2 * v);
    assert v * Pow2(h + 1) == 2 * v * Pow2(h);
  }

  /** The height of the tree: the first at which there is one node. */
  function HeightFrom(n: nat, h: nat): (r: nat)
    ensures h <= r && Width(n, r) <= 1
    ensures forall k :: h <= k < r ==> Width(n, k) > 1
    decreases Width(n, h)
  {
    if Width(n, h) <= 1 then h else
      WidthHalves(n, h);
      HeightFrom(n, h + 1)
  }

  function Height(n: nat): nat {
    HeightFrom(n, 0)
  }

  lemma RootExists(n: nat)
    requires n > 0
    ensures Width(n, Height(n)) == 1
  {
    WidthCovers(n, Height(n), 0);
  }

  /** The leaves below a node are `First(h, pos)` up to `Last(n, h, pos)`. */
  function First(h: nat, pos: nat): nat {
    pos * Pow2(h)
  }

  function Last(n: nat, h: nat, pos: nat): nat {
    if (pos + 1) * Pow2(h) < n then (pos + 1) * Pow2(h) else n
  }

  /** The leaves of an inner node are those of its children, one after the other. */
  lemma Leaves(n: nat, h: nat, pos: nat)
    requires pos < Width(n, h + 1)
    ensures First(h + 1, pos) == First(h, 2 * pos) < n
    ensures 2 * pos + 1 < Width(n, h) ==>
      && Last(n, h, 2 * pos) == First(h, 2 * pos + 1) < n
      && Last(n, h, 2 * pos + 1) == Last(n, h + 1, pos)
    ensures 2 * pos + 1 >= Width(n, h) ==> Last(n, h, 2 * pos) == Last(n, h + 1, pos)
  {
    Children(n, h, pos);
    WidthCovers(n, h + 1, pos);
    assert (2 * pos + 1 + 1) * Pow2(h) == (pos + 1) * Pow2(h + 1);
  }

  // ---------------------------------------------------------------- the tree itself

  function CalcHash(hash: Hasher, txids: seq<Digest>, h: nat, pos: nat): Digest
    requires pos < Width(|txids|, h)
  {
    if h == 0 then
      WidthCovers(|txids|, 0, pos);
      txids[pos]
    else
      Children(|txids|, h - 1, pos);
      var left := CalcHash(hash, txids, h - 1, 2 * pos);
      var right := if 2 * pos + 1 < Width(|txids|, h - 1)
                   then CalcHash(hash, txids, h - 1, 2 * pos + 1) else left;
      hash(left, right)
  }

  predicate Distinct(txids: seq<Digest>) {
    forall i, j :: 0 <= i < j < |txids| ==> txids[i] != txids[j]
  }

  /** With distinct transactions, different nodes of one height have different hashes. */
  lemma {:induction false} NodesDiffer(hash: Hasher, txids: seq<Digest>, h: nat, pos: nat, pos': nat)
    requires Injective(hash) && Distinct(txids)
    requires pos < Width(|txids|, h) && pos' < Width(|txids|, h) && pos != pos'
    ensures CalcHash(hash, txids, h, pos) != CalcHash(hash, txids, h, pos')
    decreases h
  {
    if h == 0 {
      WidthCovers(|txids|, 0, pos);
      WidthCovers(|txids|, 0, pos');
    } else {
      Children(|txids|, h - 1, pos);
      Children(|txids|, h - 1, pos');
      NodesDiffer(hash, txids, h - 1, 2 * pos, 2 * pos');
    }
  }

  // ---------------------------------------------------------------- building

  /** Whether some leaf below the node is matched. */
  ghost predicate Parent(mask: seq<bool>, h: nat, pos: nat) {
    exists p :: First(h, pos) <= p < Last(|mask|, h, pos) && mask[p]
  }

  lemma ParentSplits(mask: seq<bool>, h: nat, pos: nat)
    requires pos < Width(|mask|, h + 1)
    ensures Parent(mask, h + 1, pos)
       <==> Parent(mask, h, 2 * pos)
            || (2 * pos + 1 < Width(|mask|, h) && Parent(mask, h, 2 * pos + 1))
  {
    hide First, Last, Width;
    Leaves(|mask|, h, pos);
    var n := |mask|;
    LastBound(n, h, 2 * pos);
    LastBound(n, h, 2 * pos + 1);
    LastBound(n, h + 1, pos);
    if Parent(mask, h + 1, pos) {
      var p :| First(h + 1, pos) <= p < Last(n, h + 1, pos) && mask[p];
      assert p < Last(n, h, 2 * pos) || (2 * pos + 1 < Width(n, h) && First(h, 2 * pos + 1) <= p);
    }
    if Parent(mask, h, 2 * pos) {
      var p :| First(h, 2 * pos) <= p < Last(n, h, 2 * pos) && mask[p];
      LastGrows(n, h, pos);
    }
    if 2 * pos + 1 < Width(n, h) && Parent(mask, h, 2 * pos + 1) {
      var p :| First(h, 2 * pos + 1) <= p < Last(n, h, 2 * pos + 1) && mask[p];
      FirstGrows(h, pos);
    }
  }

  lemma LastBound(n: nat, h: nat, pos: nat)
    ensures Last(n, h, pos) <= n
  {
  }

  lemma FirstGrows(h: nat, pos: nat)
    ensures First(h + 1, pos) <= First(h, 2 * pos + 1)
  {
    assert pos * (2 * Pow2(h)) <= (2 * pos + 1) * Pow2(h);
  }

  lemma LastGrows(n: nat, h: nat, pos: nat)
    ensures Last(n, h, 2 * pos) <= Last(n, h + 1, pos)
  {
    assert (2 * pos + 1) * Pow2(h) <= (pos + 1) * (2 * Pow2(h));
  }

  /** The flag bits of a depth-first traversal. */
  ghost function Bits(mask: seq<bool>, h: nat, pos: nat): (r: seq<bool>)
    requires pos < Width(|mask|, h)
    ensures |r| >= 1
  {
    if h == 0 || !Parent(mask, h, pos) then [Parent(mask, h, pos)] else
      Children(|mask|, h - 1, pos);
      [true] + Bits(mask, h - 1, 2 * pos)
      + if 2 * pos + 1 < Width(|mask|, h - 1) then Bits(mask, h - 1, 2 * pos + 1) else []
  }

  /** The hashes it stores: matched leaves and the roots of subtrees without matches. */
  ghost function Hashes(hash: Hasher, txids: seq<Digest>, mask: seq<bool>, h: nat, pos: nat): (r: seq<Digest>)
    requires |txids| == |mask| && pos < Width(|mask|, h)
    ensures |r| >= 1
  {
    if h == 0 || !Parent(mask, h, pos) then [CalcHash(hash, txids, h, pos)] else
      Children(|mask|, h - 1, pos);
      Hashes(hash, txids, mask, h - 1, 2 * pos)
      + if 2 * pos + 1 < Width(|mask|, h - 1)
        then Hashes(hash, txids, mask, h - 1, 2 * pos + 1) else []
  }

  // ---------------------------------------------------------------- extracting

  datatype Found = Found(hash: Digest, index: nat)

  /** What reading one subtree yields: its hash, the counters after it, the matches, any problem. */
  datatype Reading = Reading(hash: Digest, bits: nat, hashes: nat, found: seq<Found>, bad: bool)

  function Extract(hash: Hasher, n: nat, bits: seq<bool>, hashes: seq<Digest>,
                   h: nat, pos: nat, b: nat, k: nat): Reading
  {
    if b >= |bits| then Reading(0, b, k, [], true)
    else if h == 0 || !bits[b] then
      if k >= |hashes| then Reading(0, b + 1, k, [], true)
      else Reading(hashes[k], b + 1, k + 1, if h == 0 && bits[b] then [Found(hashes[k], pos)] else [], false)
    else
      var l := Extract(hash, n, bits, hashes, h - 1, 2 * pos, b + 1, k);
      if 2 * pos + 1 < Width(n, h - 1) then
        var r := Extract(hash, n, bits, hashes, h - 1, 2 * pos + 1, l.bits, l.hashes);
        Reading(hash(l.hash, r.hash), r.bits, r.hashes, l.found + r.found,
                l.bad || r.bad || r.hash == l.hash)
      else
        Reading(hash(l.hash, l.hash), l.bits, l.hashes, l.found, l.bad)
  }

  // ---------------------------------------------------------------- completeness

  /** The matched transactions among leaves `lo` up to `hi`, in order. */
  function Matches(txids: seq<Digest>, mask: seq<bool>, lo: nat, hi: nat): seq<Found>
    requires hi <= |mask| == |txids|
  {
    if hi <= lo then [] else
      Matches(txids, mask, lo, hi - 1) + if mask[hi - 1] then [Found(txids[hi - 1], hi - 1)] else []
  }

  lemma {:induction false} MatchesConcat(txids: seq<Digest>, mask: seq<bool>, lo: nat, mid: nat, hi: nat)
    requires lo <= mid <= hi <= |mask| == |txids|
    ensures Matches(txids, mask, lo, hi) == Matches(txids, mask, lo, mid) + Matches(txids, mask, mid, hi)
  {
    if mid < hi {
      MatchesConcat(txids, mask, lo, mid, hi - 1);
    }
  }

  lemma {:induction false} MatchesNone(txids: seq<Digest>, mask: seq<bool>, lo: nat, hi: nat)
    requires hi <= |mask| == |txids| && forall p :: lo <= p < hi ==> !mask[p]
    ensures Matches(txids, mask, lo, hi) == []
  {
    if lo < hi {
      MatchesNone(txids, mask, lo, hi - 1);
    }
  }

  ghost function MatchesBelow(txids: seq<Digest>, mask: seq<bool>, h: nat, pos: nat): seq<Found>
    requires |mask| == |txids|
  {
    LastBound(|mask|, h, pos);
    Matches(txids, mask, First(h, pos), Last(|mask|, h, pos))
  }

  lemma MatchesSplit(txids: seq<Digest>, mask: seq<bool>, h: nat, pos: nat)
    requires |mask| == |txids| && pos < Width(|mask|, h + 1)
    ensures MatchesBelow(txids, mask, h + 1, pos)
         == MatchesBelow(txids, mask, h, 2 * pos)
            + if 2 * pos + 1 < Width(|mask|, h) then MatchesBelow(txids, mask, h, 2 * pos + 1) else []
  {
    hide First, Last, Width;
    var n := |mask|;
    Leaves(n, h, pos);
    LastBound(n, h, 2 * pos);
    LastBound(n, h, 2 * pos + 1);
    LastBound(n, h + 1, pos);
    FirstGrows(h, pos);
    LastGrows(n, h, pos);
    if 2 * pos + 1 < Width(n, h) {
      FirstBeforeLast(n, h, 2 * pos + 1);
      MatchesConcat(txids, mask, First(h, 2 * pos), First(h, 2 * pos + 1), Last(n, h, 2 * pos + 1));
    }
  }

  lemma FirstBeforeLast(n: nat, h: nat, pos: nat)
    requires First(h, pos) < n
    ensures First(h, pos) < Last(n, h, pos)
  {
    assert pos * Pow2(h) < (pos + 1) * Pow2(h);
  }

  /** The part of `s` that starts at `at` and has the contents `part`. */
  ghost predicate HasAt<T>(s: seq<T>, at: nat, part: seq<T>) {
    at + |part| <= |s| && s[at..at + |part|] == part
  }

  lemma HasAtSplit<T>(s: seq<T>, at: nat, a: seq<T>, b: seq<T>)
    requires HasAt(s, at, a + b)
    ensures HasAt(s, at, a) && HasAt(s, at + |a|, b)
  {
    var whole := s[at..at + |a + b|];
    assert whole[..|a|] == a && whole[|a|..] == b;
    assert s[at..at + |a|] == whole[..|a|];
    assert s[at + |a|..at + |a| + |b|] == whole[|a|..];
  }

  /** Somewhere the traversal descends, two siblings have the same hash. */
  ghost predicate Twins(hash: Hasher, txids: seq<Digest>, mask: seq<bool>, h: nat, pos: nat)
    requires |txids| == |mask| && pos < Width(|mask|, h)
  {
    h > 0 && Parent(mask, h, pos) &&
    (Children(|mask|, h - 1, pos);
     || Twins(hash, txids, mask, h - 1, 2 * pos)
     || (2 * pos + 1 < Width(|mask|, h - 1)
         && (Twins(hash, txids, mask, h - 1, 2 * pos + 1)
             || CalcHash(hash, txids, h - 1, 2 * pos) == CalcHash(hash, txids, h - 1, 2 * pos + 1))))
  }

  /** The reading of a subtree that was built from the block. */
  ghost function Truth(hash: Hasher, txids: seq<Digest>, mask: seq<bool>, h: nat, pos: nat, b: nat, k: nat): Reading
    requires |txids| == |mask| && pos < Width(|mask|, h)
  {
    Reading(CalcHash(hash, txids, h, pos), b + |Bits(mask, h, pos)|,
            k + |Hashes(hash, txids, mask, h, pos)|, MatchesBelow(txids, mask, h, pos),
            Twins(hash, txids, mask, h, pos))
  }

  /** Reading back what was built, wherever it stands in the bits and hashes. */
  lemma {:induction false} ExtractBuilt(hash: Hasher, txids: seq<Digest>, mask: seq<bool>,
                                        bits: seq<bool>, hashes: seq<Digest>, h: nat, pos: nat, b: nat, k: nat)
    requires |txids| == |mask| && pos < Width(|mask|, h)
    requires HasAt(bits, b, Bits(mask, h, pos))
    requires HasAt(hashes, k, Hashes(hash, txids, mask, h, pos))
    ensures Extract(hash, |txids|, bits, hashes, h, pos, b, k) == Truth(hash, txids, mask, h, pos, b, k)
    decreases h
  {
    hide Parent, MatchesBelow, CalcHash, Width;
    if h == 0 || !Parent(mask, h, pos) {
      ExtractLeaf(hash, txids, mask, bits, hashes, h, pos, b, k);
    } else {
      ExtractInner(hash, txids, mask, bits, hashes, h, pos, b, k);
    }
  }

  lemma {:induction false} NoTwins(hash: Hasher, txids: seq<Digest>, mask: seq<bool>, h: nat, pos: nat)
    requires Injective(hash) && Distinct(txids) && |txids| == |mask| && pos < Width(|mask|, h)
    ensures !Twins(hash, txids, mask, h, pos)
    decreases h
  {
    hide Parent, Width, Injective, Distinct, CalcHash;
    if h > 0 {
      Children(|mask|, h - 1, pos);
      NoTwins(hash, txids, mask, h - 1, 2 * pos);
      if 2 * pos + 1 < Width(|mask|, h - 1) {
        NoTwins(hash, txids, mask, h - 1, 2 * pos + 1);
        NodesDiffer(hash, txids, h - 1, 2 * pos, 2 * pos + 1);
      }
    }
  }

  lemma ExtractLeaf(hash: Hasher, txids: seq<Digest>, mask: seq<bool>,
                    bits: seq<bool>, hashes: seq<Digest>, h: nat, pos: nat, b: nat, k: nat)
    requires |txids| == |mask| && pos < Width(|mask|, h) && (h == 0 || !Parent(mask, h, pos))
    requires HasAt(bits, b, Bits(mask, h, pos))
    requires HasAt(hashes, k, Hashes(hash, txids, mask, h, pos))
    ensures Extract(hash, |txids|, bits, hashes, h, pos, b, k) == Truth(hash, txids, mask, h, pos, b, k)
  {
    hide Width, MatchesBelow, First, Last, Matches;
    assert bits[b..b + 1][0] == bits[b];
    assert hashes[k..k + 1][0] == hashes[k];
    LeafMatches(txids, mask, h, pos);
  }

  /** The matches below a node that is not descended into. */
  lemma LeafMatches(txids: seq<Digest>, mask: seq<bool>, h: nat, pos: nat)
    requires |txids| == |mask| && pos < Width(|mask|, h) && (h == 0 || !Parent(mask, h, pos))
    ensures h == 0 ==> pos < |txids|
    ensures MatchesBelow(txids, mask, h, pos) == if Parent(mask, h, pos) then [Found(txids[pos], pos)] else []
  {
    hide Width;
    LastBound(|mask|, h, pos);
    if Parent(mask, h, pos) {
      assert First(0, pos) == pos;
      var p :| First(0, pos) <= p < Last(|mask|, 0, pos) && mask[p];
      assert Matches(txids, mask, pos, pos) == [];
    } else {
      MatchesNone(txids, mask, First(h, pos), Last(|mask|, h, pos));
      if h == 0 { WidthCovers(|mask|, 0, pos); }
    }
  }

  lemma {:induction false} ExtractInner(hash: Hasher, txids: seq<Digest>, mask: seq<bool>,
                                        bits: seq<bool>, hashes: seq<Digest>, h: nat, pos: nat, b: nat, k: nat)
    requires |txids| == |mask| && pos < Width(|mask|, h)
    requires h > 0 && Parent(mask, h, pos)
    requires HasAt(bits, b, Bits(mask, h, pos))
    requires HasAt(hashes, k, Hashes(hash, txids, mask, h, pos))
    ensures Extract(hash, |txids|, bits, hashes, h, pos, b, k) == Truth(hash, txids, mask, h, pos, b, k)
    decreases h, 0
  {
    hide Parent, MatchesBelow, Width, HasAt, Extract, CalcHash, Twins;
    var n := |txids|;
    Children(n, h - 1, pos);
    var lb, lh := Bits(mask, h - 1, 2 * pos), Hashes(hash, txids, mask, h - 1, 2 * pos);
    if 2 * pos + 1 < Width(n, h - 1) {
      var rb, rh := Bits(mask, h - 1, 2 * pos + 1), Hashes(hash, txids, mask, h - 1, 2 * pos + 1);
      SplitThree(bits, b, lb, rb);
      HasAtSplit(hashes, k, lh, rh);
      ExtractBuilt(hash, txids, mask, bits, hashes, h - 1, 2 * pos, b + 1, k);
      ExtractBuilt(hash, txids, mask, bits, hashes, h - 1, 2 * pos + 1, b + 1 + |lb|, k + |lh|);
      JoinTwo(hash, txids, mask, bits, hashes, h, pos, b, k);
    } else {
      SplitThree(bits, b, lb, []);
      HasAtSplit(hashes, k, lh, []);
      ExtractBuilt(hash, txids, mask, bits, hashes, h - 1, 2 * pos, b + 1, k);
      JoinOne(hash, txids, mask, bits, hashes, h, pos, b, k);
    }
  }

  lemma JoinTwo(hash: Hasher, txids: seq<Digest>, mask: seq<bool>,
                bits: seq<bool>, hashes: seq<Digest>, h: nat, pos: nat, b: nat, k: nat)
    requires |txids| == |mask| && h > 0 && pos < Width(|mask|, h) && Parent(mask, h, pos)
    requires b < |bits| && bits[b]
    requires 2 * pos < Width(|mask|, h - 1) && 2 * pos + 1 < Width(|mask|, h - 1)
    requires Extract(hash, |txids|, bits, hashes, h - 1, 2 * pos, b + 1, k)
          == Truth(hash, txids, mask, h - 1, 2 * pos, b + 1, k)
    requires
      var l := Truth(hash, txids, mask, h - 1, 2 * pos, b + 1, k);
      Extract(hash, |txids|, bits, hashes, h - 1, 2 * pos + 1, l.bits, l.hashes)
      == Truth(hash, txids, mask, h - 1, 2 * pos + 1, l.bits, l.hashes)
    ensures Extract(hash, |txids|, bits, hashes, h, pos, b, k) == Truth(hash, txids, mask, h, pos, b, k)
  {
    hide Parent, MatchesBelow, Width;
    MatchesSplit(txids, mask, h - 1, pos);
  }

  lemma JoinOne(hash: Hasher, txids: seq<Digest>, mask: seq<bool>,
                bits: seq<bool>, hashes: seq<Digest>, h: nat, pos: nat, b: nat, k: nat)
    requires |txids| == |mask| && h > 0 && pos < Width(|mask|, h) && Parent(mask, h, pos)
    requires b < |bits| && bits[b]
    requires 2 * pos < Width(|mask|, h - 1) && 2 * pos + 1 >= Width(|mask|, h - 1)
    requires Extract(hash, |txids|, bits, hashes, h - 1, 2 * pos, b + 1, k)
          == Truth(hash, txids, mask, h - 1, 2 * pos, b + 1, k)
    ensures Extract(hash, |txids|, bits, hashes, h, pos, b, k) == Truth(hash, txids, mask, h, pos, b, k)
  {
    hide Parent, MatchesBelow, Width;
    MatchesSplit(txids, mask, h - 1, pos);
  }

  lemma SplitThree(bits: seq<bool>, b: nat, left: seq<bool>, right: seq<bool>)
    requires HasAt(bits, b, [true] + left + right)
    ensures b < |bits| && bits[b] && HasAt(bits, b + 1, left) && HasAt(bits, b + 1 + |left|, right)
  {
    assert [true] + left + right == [true] + (left + right);
    HasAtSplit(bits, b, [true], left + right);
    HasAtSplit(bits, b + 1, left, right);
    assert bits[b..b + 1][0] == bits[b];
  }

  // ---------------------------------------------------------------- soundness

  /** Indexes found below a node, in order, each with the transaction that is really there. */
  ghost predicate Genuine(txids: seq<Digest>, found: seq<Found>, lo: nat, hi: nat) {
    && (forall i :: 0 <= i < |found| ==>
          lo <= found[i].index < hi && found[i].index < |txids| && found[i].hash == txids[found[i].index])
    && (forall i, j :: 0 <= i < j < |found| ==> found[i].index < found[j].index)
  }

  /**
   Whatever the bits and hashes, if the subtree's hash is right then so is all that was found; with
   distinct transactions also when the number of transactions `n` is not the block's.
   */
  lemma {:induction false} ExtractSound(hash: Hasher, txids: seq<Digest>, n: nat, bits: seq<bool>,
                                        hashes: seq<Digest>, h: nat, pos: nat, b: nat, k: nat)
    requires Injective(hash) && (n == |txids| || Distinct(txids)) && pos < Width(|txids|, h)
    requires
      var r := Extract(hash, n, bits, hashes, h, pos, b, k);
      !r.bad && r.hash == CalcHash(hash, txids, h, pos)
    ensures
      var r := Extract(hash, n, bits, hashes, h, pos, b, k);
      Genuine(txids, r.found, First(h, pos), Last(|txids|, h, pos))
    decreases h
  {
    hide Width, First, Last, Genuine, Injective, Extract, CalcHash, Distinct;
    var m := |txids|;
    SoundLeaf(hash, txids, n, bits, hashes, h, pos, b, k);
    if h > 0 && bits[b] {
      SoundParts(hash, txids, n, bits, hashes, h, pos, b, k);
      Children(m, h - 1, pos);
      Leaves(m, h - 1, pos);
      LastGrows(m, h - 1, pos);
      FirstGrows(h - 1, pos);
      var l := Extract(hash, n, bits, hashes, h - 1, 2 * pos, b + 1, k);
      ExtractSound(hash, txids, n, bits, hashes, h - 1, 2 * pos, b + 1, k);
      if 2 * pos + 1 < Width(m, h - 1) {
        var r := Extract(hash, n, bits, hashes, h - 1, 2 * pos + 1, l.bits, l.hashes);
        ExtractSound(hash, txids, n, bits, hashes, h - 1, 2 * pos + 1, l.bits, l.hashes);
        GenuineJoin(txids, l.found, r.found, First(h, pos), First(h - 1, 2 * pos + 1), Last(m, h, pos));
      }
    }
  }

  /** A good reading that does not descend finds at most the leaf itself. */
  lemma SoundLeaf(hash: Hasher, txids: seq<Digest>, n: nat, bits: seq<bool>, hashes: seq<Digest>,
                  h: nat, pos: nat, b: nat, k: nat)
    requires pos < Width(|txids|, h)
    requires
      var r := Extract(hash, n, bits, hashes, h, pos, b, k);
      !r.bad && r.hash == CalcHash(hash, txids, h, pos)
    ensures b < |bits|
    ensures h == 0 || !bits[b] ==>
      var r := Extract(hash, n, bits, hashes, h, pos, b, k);
      Genuine(txids, r.found, First(h, pos), Last(|txids|, h, pos))
  {
    hide Width;
    if h == 0 { WidthCovers(|txids|, 0, pos); }
  }

  /** A good reading of an inner node is made of good readings of its children. */
  lemma SoundParts(hash: Hasher, txids: seq<Digest>, n: nat, bits: seq<bool>, hashes: seq<Digest>,
                   h: nat, pos: nat, b: nat, k: nat)
    requires Injective(hash) && (n == |txids| || Distinct(txids))
    requires pos < Width(|txids|, h) && h > 0 && b < |bits| && bits[b]
    requires
      var r := Extract(hash, n, bits, hashes, h, pos, b, k);
      !r.bad && r.hash == CalcHash(hash, txids, h, pos)
    ensures 2 * pos < Width(|txids|, h - 1)
    ensures
      var x := Extract(hash, n, bits, hashes, h, pos, b, k);
      var l := Extract(hash, n, bits, hashes, h - 1, 2 * pos, b + 1, k);
      && !l.bad && l.hash == CalcHash(hash, txids, h - 1, 2 * pos)
      && if 2 * pos + 1 < Width(|txids|, h - 1) then
           var r := Extract(hash, n, bits, hashes, h - 1, 2 * pos + 1, l.bits, l.hashes);
           !r.bad && r.hash == CalcHash(hash, txids, h - 1, 2 * pos + 1) && x.found == l.found + r.found
         else x.found == l.found
  {
    hide Width, Injective, Distinct;
    var m := |txids|;
    Children(m, h - 1, pos);
    var l := Extract(hash, n, bits, hashes, h - 1, 2 * pos, b + 1, k);
    var r := Extract(hash, n, bits, hashes, h - 1, 2 * pos + 1, l.bits, l.hashes);
    var here, there := 2 * pos + 1 < Width(m, h - 1), 2 * pos + 1 < Width(n, h - 1);
    var left := CalcHash(hash, txids, h - 1, 2 * pos);
    var right := if here then CalcHash(hash, txids, h - 1, 2 * pos + 1) else left;
    InjectiveAt(hash, l.hash, if there then r.hash else l.hash, left, right);
    if here && n != m {
      NodesDiffer(hash, txids, h - 1, 2 * pos, 2 * pos + 1);
    }
  }

  lemma InjectiveAt(hash: Hasher, a: Digest, b: Digest, c: Digest, d: Digest)
    requires Injective(hash) && hash(a, b) == hash(c, d)
    ensures a == c && b == d
  {
  }

  lemma GenuineJoin(txids: seq<Digest>, f: seq<Found>, g: seq<Found>, lo: nat, mid: nat, hi: nat)
    requires Genuine(txids, f, lo, mid) && Genuine(txids, g, mid, hi) && lo <= mid <= hi
    ensures Genuine(txids, f + g, lo, hi)
  {
  }
}
