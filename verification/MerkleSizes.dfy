/** How long the encoding of a partial Merkle tree gets, and when the documented bound holds. */
module MerkleSizes {
  import opened MerkleProofs
  import opened Powers

  /** Never more hashes than transactions below the node. */
  lemma {:induction false} HashesAtMostLeaves(hash: Hasher, txids: seq<Digest>, mask: seq<bool>, h: nat, pos: nat)
    requires |txids| == |mask| && pos < Width(|mask|, h)
    ensures First(h, pos) < Last(|mask|, h, pos)
    ensures |Hashes(hash, txids, mask, h, pos)| <= Last(|mask|, h, pos) - First(h, pos)
    decreases h
  {
    hide Width, First, Last, Parent, CalcHash;
    var n := |mask|;
    WidthCovers(n, h, pos);
    FirstIs(h, pos);
    FirstBeforeLast(n, h, pos);
    if h > 0 && Parent(mask, h, pos) {
      Children(n, h - 1, pos);
      Leaves(n, h - 1, pos);
      HashesAtMostLeaves(hash, txids, mask, h - 1, 2 * pos);
      if 2 * pos + 1 < Width(n, h - 1) {
        HashesAtMostLeaves(hash, txids, mask, h - 1, 2 * pos + 1);
      }
    }
  }

  lemma FirstIs(h: nat, pos: nat)
    ensures First(h, pos) == pos * Pow2(h)
  {
  }

  /** At most one more hash than matches times height. */
  lemma {:induction false} HashesAtMostMatches(hash: Hasher, txids: seq<Digest>, mask: seq<bool>, h: nat, pos: nat)
    requires |txids| == |mask| && pos < Width(|mask|, h)
    ensures |Hashes(hash, txids, mask, h, pos)| <= 1 + |MatchesBelow(txids, mask, h, pos)| * h
    decreases h
  {
    hide Width, First, Last, MatchesBelow, CalcHash, Parent;
    var n := |mask|;
    if h > 0 && Parent(mask, h, pos) {
      Children(n, h - 1, pos);
      MatchesSplit(txids, mask, h - 1, pos);
      ParentHasMatch(txids, mask, h, pos);
      HashesAtMostMatches(hash, txids, mask, h - 1, 2 * pos);
      var ml, hl := |MatchesBelow(txids, mask, h - 1, 2 * pos)|, |Hashes(hash, txids, mask, h - 1, 2 * pos)|;
      if 2 * pos + 1 < Width(n, h - 1) {
        HashesAtMostMatches(hash, txids, mask, h - 1, 2 * pos + 1);
        AddBounds(ml, |MatchesBelow(txids, mask, h - 1, 2 * pos + 1)|, h, hl,
                  |Hashes(hash, txids, mask, h - 1, 2 * pos + 1)|);
      } else {
        AddBounds(ml, 0, h, hl, 0);
      }
    }
  }

  lemma AddBounds(ml: nat, mr: nat, h: nat, hl: nat, hr: nat)
    requires h > 0 && ml + mr >= 1
    requires hl <= 1 + ml * (h - 1) && hr <= 1 + mr * (h - 1)
    ensures hl + hr <= 1 + (ml + mr) * h
  {
    assert ml * (h - 1) + mr * (h - 1) + (ml + mr) == (ml + mr) * h;
  }

  lemma {:induction false} ParentHasMatch(txids: seq<Digest>, mask: seq<bool>, h: nat, pos: nat)
    requires |txids| == |mask| && Parent(mask, h, pos)
    ensures |MatchesBelow(txids, mask, h, pos)| >= 1
  {
    var n := |mask|;
    LastBound(n, h, pos);
    var p :| First(h, pos) <= p < Last(n, h, pos) && mask[p];
    MatchesConcat(txids, mask, First(h, pos), p + 1, Last(n, h, pos));
    assert |Matches(txids, mask, First(h, pos), p + 1)| >= 1;
  }

  /** The nodes with a single child that the traversal descends through. */
  ghost function OneChild(mask: seq<bool>, h: nat, pos: nat): nat
    requires pos < Width(|mask|, h)
  {
    if h == 0 || !Parent(mask, h, pos) then 0 else
      Children(|mask|, h - 1, pos);
      OneChild(mask, h - 1, 2 * pos)
      + if 2 * pos + 1 < Width(|mask|, h - 1) then OneChild(mask, h - 1, 2 * pos + 1) else 1
  }

  /** The exact number of bits: a binary tree's, plus one for every single child. */
  lemma {:induction false} BitsExact(hash: Hasher, txids: seq<Digest>, mask: seq<bool>, h: nat, pos: nat)
    requires |txids| == |mask| && pos < Width(|mask|, h)
    ensures |Bits(mask, h, pos)|
         == 2 * |Hashes(hash, txids, mask, h, pos)| - 1 + OneChild(mask, h, pos)
    decreases h
  {
    hide Width, Parent, CalcHash;
    if h > 0 && Parent(mask, h, pos) {
      Children(|mask|, h - 1, pos);
      BitsExact(hash, txids, mask, h - 1, 2 * pos);
      if 2 * pos + 1 < Width(|mask|, h - 1) {
        BitsExact(hash, txids, mask, h - 1, 2 * pos + 1);
      }
    }
  }

  /** Single children occur on the right edge only, at most one per height. */
  lemma {:induction false} OneChildBound(mask: seq<bool>, h: nat, pos: nat)
    requires pos < Width(|mask|, h)
    ensures OneChild(mask, h, pos) <= if pos + 1 == Width(|mask|, h) then h else 0
    decreases h
  {
    hide Width, Parent;
    if h > 0 && Parent(mask, h, pos) {
      Children(|mask|, h - 1, pos);
      WidthHalves(|mask|, h - 1);
      OneChildBound(mask, h - 1, 2 * pos);
      if 2 * pos + 1 < Width(|mask|, h - 1) {
        OneChildBound(mask, h - 1, 2 * pos + 1);
      }
    }
  }

  /** Whether the last node of a height has a single child and a match below it. */
  ghost predicate EdgeMatch(mask: seq<bool>, g: nat)
    requires g > 0
  {
    Width(|mask|, g - 1) % 2 == 1 && Width(|mask|, g) > 0 && Parent(mask, g, Width(|mask|, g) - 1)
  }

  lemma ParentUp(mask: seq<bool>, h: nat)
    requires Width(|mask|, h) > 0 && Parent(mask, h, Width(|mask|, h) - 1)
    ensures Width(|mask|, h + 1) > 0 && Parent(mask, h + 1, Width(|mask|, h + 1) - 1)
  {
    hide Parent, Width;
    WidthHalves(|mask|, h);
    ParentSplits(mask, h, Width(|mask|, h + 1) - 1);
  }

  lemma {:induction false} EdgeGoesUp(mask: seq<bool>, g: nat, h: nat)
    requires 0 < g <= h && Width(|mask|, g) > 0 && Parent(mask, g, Width(|mask|, g) - 1)
    ensures Width(|mask|, h) > 0 && Parent(mask, h, Width(|mask|, h) - 1)
  {
    if g < h {
      EdgeGoesUp(mask, g, h - 1);
      ParentUp(mask, h - 1);
    }
  }

  /** How many heights up to `h` end in a single child with a match below its parent. */
  ghost function Edges(mask: seq<bool>, h: nat): nat {
    if h == 0 then 0 else Edges(mask, h - 1) + if EdgeMatch(mask, h) then 1 else 0
  }

  lemma {:induction false} NoEdges(mask: seq<bool>, h: nat)
    ensures Edges(mask, h) == 0 <==> forall g :: 0 < g <= h ==> !EdgeMatch(mask, g)
  {
    hide EdgeMatch;
    if h > 0 {
      NoEdges(mask, h - 1);
    }
  }

  /** The single children descended through are one for every such height. */
  lemma {:induction false} OneChildCounts(mask: seq<bool>, h: nat)
    requires Width(|mask|, h) > 0
    ensures OneChild(mask, h, Width(|mask|, h) - 1) == Edges(mask, h)
  {
    hide Parent, Width;
    var n, pos := |mask|, Width(|mask|, h) - 1;
    if h > 0 {
      WidthHalves(n, h - 1);
      Children(n, h - 1, pos);
      if !Parent(mask, h, pos) {
        forall g | 0 < g <= h
          ensures !EdgeMatch(mask, g)
        {
          if EdgeMatch(mask, g) {
            WidthPositive(n, g);
            EdgeGoesUp(mask, g, h);
          }
        }
        NoEdges(mask, h);
      } else {
        OneChildCounts(mask, h - 1);
        if Width(n, h - 1) % 2 == 0 {
          OneChildBound(mask, h - 1, 2 * pos);
        }
      }
    }
  }

  lemma WidthPositive(n: nat, g: nat)
    requires g > 0 && Width(n, g - 1) % 2 == 1
    ensures Width(n, g) > 0
  {
    WidthHalves(n, g - 1);
  }

  /**
   The documented "at most 2*N-1 bits" for N hashes holds exactly when no single-child node of
   the tree has a match below it; `2*N - 1 + height` always holds.
   */
  lemma DocumentedBits(hash: Hasher, txids: seq<Digest>, mask: seq<bool>)
    requires |txids| == |mask| > 0
    ensures Width(|mask|, Height(|mask|)) == 1
    ensures
      var h := Height(|mask|);
      var bits, hashes := |Bits(mask, h, 0)|, |Hashes(hash, txids, mask, h, 0)|;
      && bits <= 2 * hashes - 1 + h
      && (bits <= 2 * hashes - 1 <==> forall g :: 0 < g <= h ==> !EdgeMatch(mask, g))
  {
    hide Width, Parent, EdgeMatch;
    RootExists(|mask|);
    var h := Height(|mask|);
    BitsExact(hash, txids, mask, h, 0);
    OneChildBound(mask, h, 0);
    OneChildCounts(mask, h);
    NoEdges(mask, h);
  }

  /** Three transactions with the last one matched take four bits for two hashes. */
  lemma DocumentedBitsFail(hash: Hasher, txids: seq<Digest>)
    requires |txids| == 3
    ensures
      var mask := [false, false, true];
      && Width(3, Height(3)) == 1
      && |Bits(mask, Height(3), 0)| > 2 * |Hashes(hash, txids, mask, Height(3), 0)| - 1
  {
    hide Width, Height, EdgeMatch, Bits, Hashes;
    DocumentedBits(hash, txids, [false, false, true]);
    LastOfThree();
  }

  lemma LastOfThree()
    ensures EdgeMatch([false, false, true], 1) && Height(3) >= 1
  {
    var mask := [false, false, true];
    assert Pow2(1) == 2;
    assert Width(3, 0) == 3 && Width(3, 1) == 2;
    assert First(1, 1) == 2 && Last(3, 1, 1) == 3;
    assert mask[2];
    assert Parent(mask, 1, 1);
  }
}
