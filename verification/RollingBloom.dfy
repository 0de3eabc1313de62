/**
 * The rolling Bloom filter: cells of two bits, kept in paired 64-bit words,
 * remember which of three generations last touched them.
 */
module RollingBloom {
  type Word = bv64
  type Index = bv6

  predicate Bit(x: Word, b: Index) {
    (x >> b) & 1 == 1
  }

  function And(x: Word, y: Word): Word { x & y }

  function Or(x: Word, y: Word): Word { x | y }

  function Xor(x: Word, y: Word): Word { x ^ y }

  function Not(x: Word): Word { !x }

  function Shift(v: Word, c: Index): Word { v << c }

  /** `0 - v`: all bits set for one, none for zero. */
  function Spread(v: Word): Word { 0 - v }

  lemma AndBit(x: Word, y: Word, b: Index)
    ensures Bit(And(x, y), b) <==> Bit(x, b) && Bit(y, b)
  {
    AndRaw(x, y, b);
  }

  lemma AndRaw(x: Word, y: Word, b: Index)
    ensures Bit(x & y, b) <==> Bit(x, b) && Bit(y, b)
  {
  }

  lemma OrBit(x: Word, y: Word, b: Index)
    ensures Bit(Or(x, y), b) <==> Bit(x, b) || Bit(y, b)
  {
    OrRaw(x, y, b);
  }

  lemma OrRaw(x: Word, y: Word, b: Index)
    ensures Bit(x | y, b) <==> Bit(x, b) || Bit(y, b)
  {
  }

  lemma XorBit(x: Word, y: Word, b: Index)
    ensures Bit(Xor(x, y), b) <==> Bit(x, b) != Bit(y, b)
  {
    XorRaw(x, y, b);
  }

  lemma XorRaw(x: Word, y: Word, b: Index)
    ensures Bit(x ^ y, b) <==> Bit(x, b) != Bit(y, b)
  {
  }

  lemma NotBit(x: Word, b: Index)
    ensures Bit(Not(x), b) <==> !Bit(x, b)
  {
  }

  lemma ShiftBit(v: Word, c: Index, b: Index)
    requires v <= 1
    ensures Bit(Shift(v, c), b) <==> b == c && v == 1
  {
  }

  lemma SpreadBit(v: Word, b: Index)
    requires v <= 1
    ensures Bit(Spread(v), b) <==> v == 1
  {
  }

  lemma ZeroBit(b: Index)
    ensures !Bit(0, b)
  {
  }

  // ---------------------------------------------------------------- generations

  /** The low and high bit of a generation number from one to three. */
  function LowOf(gen: int): Word { if gen % 2 == 1 then 1 else 0 }

  function HighOf(gen: int): Word { if gen / 2 == 1 then 1 else 0 }

  /** What two bits say: nothing, or a generation number. */
  function CellOf(low: bool, high: bool): int {
    (if low then 1 else 0) + (if high then 2 else 0)
  }

  function Next(gen: int): int { if gen == 3 then 1 else gen + 1 }

  /** How many generations ago the number `v` was current; never more than two. */
  function Age(v: int, gen: int): int {
    (gen - v + 3) % 3
  }

  // ---------------------------------------------------------------- cells

  /** The words of the filter, two for each group of 64 cells. */
  ghost predicate Paired(data: seq<Word>) {
    |data| >= 2 && |data| % 2 == 0
  }

  function Cell(data: seq<Word>, w: nat, b: Index): int
    requires 2 * w + 1 < |data|
  {
    CellOf(Bit(data[2 * w], b), Bit(data[2 * w + 1], b))
  }

  /** Clears both words wherever the cell holds the given generation. */
  function Wiped(low: Word, high: Word, gen: int): (Word, Word) {
    var mask := Or(Xor(low, Spread(LowOf(gen))), Xor(high, Spread(HighOf(gen))));
    (And(low, mask), And(high, mask))
  }

  lemma WipedCell(low: Word, high: Word, gen: int, b: Index)
    requires 1 <= gen <= 3
    ensures var (l, h) := Wiped(low, high, gen);
      var v := CellOf(Bit(low, b), Bit(high, b));
      CellOf(Bit(l, b), Bit(h, b)) == if v == gen then 0 else v
  {
    hide Bit, And, Or, Xor, Spread, LowOf, HighOf;
    var m1, m2 := Spread(LowOf(gen)), Spread(HighOf(gen));
    var mask := Or(Xor(low, m1), Xor(high, m2));
    GenerationBits(gen, b);
    XorBit(low, m1, b);
    XorBit(high, m2, b);
    OrBit(Xor(low, m1), Xor(high, m2), b);
    AndBit(low, mask, b);
    AndBit(high, mask, b);
  }

  /** The two masks of a generation spell its number in every cell. */
  lemma GenerationBits(gen: int, b: Index)
    requires 1 <= gen <= 3
    ensures CellOf(Bit(Spread(LowOf(gen)), b), Bit(Spread(HighOf(gen)), b)) == gen
    ensures CellOf(LowOf(gen) == 1, HighOf(gen) == 1) == gen
  {
    hide Bit, Spread;
    SpreadBit(LowOf(gen), b);
    SpreadBit(HighOf(gen), b);
  }

  ghost predicate WipedAt(d0: seq<Word>, d1: seq<Word>, gen: int, w: nat)
    requires |d0| == |d1| && 2 * w + 1 < |d0|
  {
    (d1[2 * w], d1[2 * w + 1]) == Wiped(d0[2 * w], d0[2 * w + 1], gen)
  }

  /** Every word pair has been wiped of one generation. */
  ghost predicate AllWiped(d0: seq<Word>, d1: seq<Word>, gen: int)
    requires |d0| == |d1|
  {
    forall w: nat :: 2 * w + 1 < |d0| ==> WipedAt(d0, d1, gen, w)
  }

  lemma WipeStart(gen: int)
    ensures AllWiped([], [], Next(gen))
  {
  }

  lemma WipeStep(d0: seq<Word>, d: seq<Word>, p: nat, gen: int)
    requires |d0| == |d| && p % 2 == 0 && p + 1 < |d| && d[p..] == d0[p..] && AllWiped(d0[..p], d[..p], gen)
    ensures var (l, h) := Wiped(d[p], d[p + 1], gen);
      var e := d[p := l][p + 1 := h];
      AllWiped(d0[..p + 2], e[..p + 2], gen) && e[p + 2..] == d0[p + 2..]
  {
    hide Wiped;
    var (l, h) := Wiped(d[p], d[p + 1], gen);
    var e := d[p := l][p + 1 := h];
    assert d[p] == d[p..][0] && d[p + 1] == d[p..][1] && d0[p] == d0[p..][0] && d0[p + 1] == d0[p..][1];
    assert e[p + 2..] == d[p..][2..] && d0[p + 2..] == d0[p..][2..];
    forall w: nat | 2 * w + 1 < p + 2
      ensures WipedAt(d0[..p + 2], e[..p + 2], gen, w)
    {
      if 2 * w != p { assert WipedAt(d0[..p], d[..p], gen, w); }
    }
  }

  /** Replaces one bit of a word. */
  function Written(x: Word, c: Index, v: Word): Word {
    Or(And(x, Not(Shift(1, c))), Shift(v, c))
  }

  lemma WrittenBit(x: Word, c: Index, v: Word, b: Index)
    requires v <= 1
    ensures Bit(Written(x, c, v), b) <==> if b == c then v == 1 else Bit(x, b)
  {
    hide Bit, And, Or, Not, Shift;
    ShiftBit(1, c, b);
    NotBit(Shift(1, c), b);
    AndBit(x, Not(Shift(1, c)), b);
    ShiftBit(v, c, b);
    OrBit(And(x, Not(Shift(1, c))), Shift(v, c), b);
  }

  /** A cell's contents changed by writing the current generation into one cell. */
  function Marked(data: seq<Word>, w: nat, c: Index, gen: int): (d: seq<Word>)
    requires 2 * w + 1 < |data|
    ensures |d| == |data|
  {
    data[2 * w := Written(data[2 * w], c, LowOf(gen))][2 * w + 1 := Written(data[2 * w + 1], c, HighOf(gen))]
  }

  lemma MarkedCell(data: seq<Word>, w: nat, c: Index, gen: int, u: nat, b: Index)
    requires 1 <= gen <= 3 && 2 * w + 1 < |data| && 2 * u + 1 < |data|
    ensures Cell(Marked(data, w, c, gen), u, b) == if u == w && b == c then gen else Cell(data, u, b)
  {
    hide Bit, Written;
    if u == w {
      WrittenBit(data[2 * w], c, LowOf(gen), b);
      WrittenBit(data[2 * w + 1], c, HighOf(gen), b);
    }
  }

  /** Whether the cell was last written at most `k` generations ago. */
  ghost predicate Marks(data: seq<Word>, w: nat, b: Index, gen: int, k: int)
    requires 2 * w + 1 < |data|
  {
    Cell(data, w, b) != 0 && Age(Cell(data, w, b), gen) <= k
  }

  function Packed(word: bv32, b: Index): bv32 { (word << 6) | (b as bv32) }

  lemma PackedParts(word: bv32, b: Index)
    requires word < 0x400_0000
    ensures Packed(word, b) >> 6 == word && (Packed(word, b) & 0x3f) as Index == b
  {
  }

  lemma SmallModulus(x: nat, m: nat)
    requires x < m
    ensures x % m == x
  {
  }

  // ---------------------------------------------------------------- the filter

  class RollingBloomFilter<Key(==, !new)> {
    const entriesPerGeneration: nat
    const hashFuncs: nat
    /** The 32-bit hash of a key, from the hash number and the tweak. */
    const hash: (nat, nat, Key) -> bv32
    var entriesThisGeneration: nat
    var generation: int
    var data: seq<Word>
    var tweak: nat
    /** Every key inserted since the last reset. */
    ghost var history: seq<Key>

    function BitIndex(h: bv32): Index { (h & 0x3f) as Index }

    /** The word pair a hash selects. */
    function Pair(h: bv32, size: nat): nat
      requires size >= 2
    {
      ((h >> 6) as int % size) / 2
    }

    lemma PairFits(h: bv32, size: nat)
      requires size >= 2 && size % 2 == 0
      ensures 2 * Pair(h, size) + 1 < size
    {
    }

    /** The low six bits of a hash are the place in the word, the others the word: no cell is left out. */
    lemma CellSelected(word: bv32, b: Index, size: nat)
      requires word < 0x400_0000 && size >= 2 && word as int < size
      ensures Pair(Packed(word, b), size) == (word as int) / 2 && BitIndex(Packed(word, b)) == b
    {
      hide Packed;
      PackedParts(word, b);
      SmallModulus(word as int, size);
    }

    ghost predicate MarksHash(d: seq<Word>, h: bv32, gen: int, k: int)
      requires Paired(d)
    {
      2 * Pair(h, |d|) + 1 < |d| && Marks(d, Pair(h, |d|), BitIndex(h), gen, k)
    }

    /** All cells of a key were written at most `k` generations ago. */
    ghost predicate Covers(d: seq<Word>, seed: nat, key: Key, gen: int, k: int)
      requires Paired(d)
    {
      forall n: nat :: n < hashFuncs ==> MarksHash(d, hash(n, seed, key), gen, k)
    }

    /** How many generations ago the entry at position `j` of `total` was inserted. */
    ghost function AgeOf(j: int, total: nat, current: nat): int {
      if j >= total - current then 0 else if j >= total - current - entriesPerGeneration then 1 else 2
    }

    /** The filter remembers the current generation and the two before it. */
    ghost predicate Remembers(d: seq<Word>, seed: nat, past: seq<Key>, gen: int, current: nat)
      requires Paired(d)
    {
      forall j :: 0 <= j < |past| && j >= |past| - current - 2 * entriesPerGeneration ==>
        Covers(d, seed, past[j], gen, AgeOf(j, |past|, current))
    }

    ghost predicate Hits(seed: nat, key: Key, n: nat, size: nat, w: nat, b: Index)
      requires size >= 2
    {
      n < hashFuncs && Pair(hash(n, seed, key), size) == w && BitIndex(hash(n, seed, key)) == b
    }

    /** Hash `n` of the recent entry at `j`, inserted `k` generations ago, selects the cell. */
    ghost predicate OwnedBy(seed: nat, past: seq<Key>, current: nat, size: nat, w: nat, b: Index, k: int,
                            j: int, n: nat)
      requires size >= 2
    {
      && 0 <= j < |past| && j >= |past| - current - 2 * entriesPerGeneration
      && AgeOf(j, |past|, current) == k && Hits(seed, past[j], n, size, w, b)
    }

    ghost predicate Owned(seed: nat, past: seq<Key>, current: nat, size: nat, w: nat, b: Index, k: int)
      requires size >= 2
    {
      exists j, n: nat :: OwnedBy(seed, past, current, size, w, b, k, j, n)
    }

    /** A set cell was set by a recent entry of just the generation that the cell holds. */
    ghost predicate Explained(d: seq<Word>, seed: nat, past: seq<Key>, gen: int, current: nat)
      requires Paired(d)
    {
      forall w: nat, b: Index :: 2 * w + 1 < |d| && Cell(d, w, b) != 0 ==>
        Owned(seed, past, current, |d|, w, b, Age(Cell(d, w, b), gen))
    }

    ghost predicate Valid()
      reads this
    {
      && Paired(data) && 1 <= generation <= 3
      && entriesThisGeneration <= |history|
      && Remembers(data, tweak, history, generation, entriesThisGeneration)
      && Explained(data, tweak, history, generation, entriesThisGeneration)
    }

    /** Takes the sizes the false-positive rate calls for. */
    constructor (elements: nat, hashFuncs: nat, groups: nat, hash: (nat, nat, Key) -> bv32, tweak: nat)
      requires groups >= 1
      ensures Valid() && history == [] && entriesPerGeneration == (elements + 1) / 2
    {
      this.entriesPerGeneration, this.hashFuncs, this.hash := (elements + 1) / 2, hashFuncs, hash;
      data := seq(2 * groups, i => 0);
      this.tweak, entriesThisGeneration, generation := tweak, 0, 1;
      history := [];
      new;
      BlankExplained(data, tweak);
    }

    lemma BlankExplained(d: seq<Word>, seed: nat)
      requires Paired(d) && forall i :: 0 <= i < |d| ==> d[i] == 0
      ensures Explained(d, seed, [], 1, 0)
    {
      forall w: nat, b: Index | 2 * w + 1 < |d|
        ensures Cell(d, w, b) == 0
      {
        ZeroBit(b);
      }
    }

    method Reset(newTweak: nat)
      requires Valid()
      modifies this
      ensures Valid() && history == [] && tweak == newTweak
    {
      tweak, entriesThisGeneration, generation := newTweak, 0, 1;
      data := seq(|data|, i => 0);
      history := [];
      BlankExplained(data, tweak);
    }

    /** The keys of the current generation and of the two before it. */
    ghost function Recent(): (recent: seq<Key>)
      requires Valid()
      reads this
      ensures |recent| >= 2 * entriesPerGeneration || recent == history
    {
      var kept := entriesThisGeneration + 2 * entriesPerGeneration;
      if kept >= |history| then history else history[|history| - kept..]
    }

    /** Some hash of some recent key selects the same cell as `h`. */
    ghost predicate Shared(h: bv32)
      requires Valid()
      reads this
    {
      exists i, m: nat :: 0 <= i < |Recent()| && Hits(tweak, Recent()[i], m, |data|, Pair(h, |data|), BitIndex(h))
    }

    /**
     * A key is reported exactly when each of its cells is also a cell of some
     * recent key. So every recent key is, and without recent keys none is.
     */
    method Contains(key: Key) returns (found: bool)
      requires Valid()
      ensures key in Recent() ==> found
      ensures found <==> forall n: nat :: n < hashFuncs ==> Shared(hash(n, tweak, key))
      ensures Recent() == [] && hashFuncs > 0 ==> !found
    {
      hide Bit, Or, BitIndex, Pair, Remembers, Recent, Touched, Shared;
      RecentKey(key);
      AllShared(key);
      NoneShared(key);
      for n := 0 to hashFuncs
        invariant forall m: nat :: m < n ==> Touched(hash(m, tweak, key))
      {
        var h := hash(n, tweak, key);
        var w := Pair(h, |data|);
        PairFits(h, |data|);
        OrBit(data[2 * w], data[2 * w + 1], BitIndex(h));
        TouchedIs(h);
        if !Bit(Or(data[2 * w], data[2 * w + 1]), BitIndex(h)) { return false; }
      }
      return true;
    }

    lemma TouchedIs(h: bv32)
      requires Valid() && 2 * Pair(h, |data|) + 1 < |data|
      ensures
        var w := Pair(h, |data|);
        Touched(h) <==> Bit(data[2 * w], BitIndex(h)) || Bit(data[2 * w + 1], BitIndex(h))
    {
      hide Bit, Pair, BitIndex;
    }

    /** The set cells are exactly the cells of recent keys. */
    lemma TouchedShared(h: bv32)
      requires Valid()
      ensures Touched(h) <==> Shared(h)
    {
      hide BitIndex, Pair, Cell, Remembers, Covers;
      PairFits(h, |data|);
      var w, b := Pair(h, |data|), BitIndex(h);
      if Touched(h) {
        var k := Age(Cell(data, w, b), generation);
        assert Owned(tweak, history, entriesThisGeneration, |data|, w, b, k);
        var j, n: nat :| OwnedBy(tweak, history, entriesThisGeneration, |data|, w, b, k, j, n);
        assert Recent()[j - (|history| - |Recent()|)] == history[j];
      }
      if Shared(h) {
        var i, m: nat :| 0 <= i < |Recent()| && Hits(tweak, Recent()[i], m, |data|, w, b);
        RecentContained(|history| - |Recent()| + i);
        assert Touched(hash(m, tweak, Recent()[i]));
      }
    }

    lemma AllShared(key: Key)
      requires Valid()
      ensures forall n: nat :: n < hashFuncs ==> (Touched(hash(n, tweak, key)) <==> Shared(hash(n, tweak, key)))
    {
      hide Touched, Shared;
      forall n: nat | n < hashFuncs
        ensures Touched(hash(n, tweak, key)) <==> Shared(hash(n, tweak, key))
      {
        TouchedShared(hash(n, tweak, key));
      }
    }

    lemma NoneShared(key: Key)
      requires Valid()
      ensures Recent() == [] && hashFuncs > 0 ==> !Shared(hash(0, tweak, key))
    {
    }

    ghost predicate Touched(h: bv32)
      requires Paired(data)
      reads this
    {
      2 * Pair(h, |data|) + 1 < |data| && Cell(data, Pair(h, |data|), BitIndex(h)) != 0
    }

    /**
     * Each of the last two full generations of keys, and every key of the
     * current one, is reported as contained.
     */
    lemma RecentContained(j: nat)
      requires Valid()
      requires j < |history| && j >= |history| - entriesThisGeneration - 2 * entriesPerGeneration
      ensures forall n: nat :: n < hashFuncs ==> Touched(hash(n, tweak, history[j]))
    {
      hide Cell;
      assert Covers(data, tweak, history[j], generation, AgeOf(j, |history|, entriesThisGeneration));
      forall n: nat | n < hashFuncs
        ensures Touched(hash(n, tweak, history[j]))
      {
        assert MarksHash(data, hash(n, tweak, history[j]), generation, AgeOf(j, |history|, entriesThisGeneration));
      }
    }

    lemma RecentKey(key: Key)
      requires Valid()
      ensures key in Recent() ==> forall n: nat :: n < hashFuncs ==> Touched(hash(n, tweak, key))
    {
      hide Remembers, Touched;
      if key in Recent() {
        var i :| 0 <= i < |Recent()| && Recent()[i] == key;
        RecentContained(|history| - |Recent()| + i);
      }
    }

    /** Starts the next generation, wiping the cells that still carry its number. */
    method Roll()
      requires Valid() && entriesThisGeneration == entriesPerGeneration
      modifies this
      ensures Valid() && entriesThisGeneration == 0
      ensures history == old(history) && tweak == old(tweak) && |data| == |old(data)|
    {
      hide Cell, Bit, Wiped, AllWiped, Remembers, Explained;
      WipeStart(generation);
      ghost var d0, g0 := data, generation;
      entriesThisGeneration := 0;
      generation := Next(generation);
      var p := 0;
      while p < |data|
        invariant 0 <= p <= |data| == |d0| && p % 2 == 0
        invariant data[p..] == d0[p..] && AllWiped(d0[..p], data[..p], generation)
        invariant unchanged(`tweak) && unchanged(`history) && entriesThisGeneration == 0 && generation == Next(g0)
      {
        var (l, h) := Wiped(data[p], data[p + 1], generation);
        WipeStep(d0, data, p, generation);
        data := data[p := l][p + 1 := h];
        p := p + 2;
      }
      assert d0[..p] == d0 && data[..p] == data;
      RollRemembers(d0, data, g0);
      RollExplained(d0, data, g0);
    }

    lemma RollRemembers(d0: seq<Word>, d1: seq<Word>, g0: int)
      requires Paired(d0) && |d1| == |d0| && 1 <= g0 <= 3
      requires AllWiped(d0, d1, Next(g0))
      requires Remembers(d0, tweak, history, g0, entriesPerGeneration)
      ensures Remembers(d1, tweak, history, Next(g0), 0)
    {
      hide Covers;
      forall j | 0 <= j < |history| && j >= |history| - 2 * entriesPerGeneration
        ensures Covers(d1, tweak, history[j], Next(g0), AgeOf(j, |history|, 0))
      {
        assert Covers(d0, tweak, history[j], g0, AgeOf(j, |history|, entriesPerGeneration));
        CoversWipe(d0, d1, g0, history[j], AgeOf(j, |history|, entriesPerGeneration));
      }
    }

    /** What is left after the wipe comes from the two generations before, and everything older is gone. */
    lemma RollExplained(d0: seq<Word>, d1: seq<Word>, g0: int)
      requires Paired(d0) && |d1| == |d0| && 1 <= g0 <= 3
      requires AllWiped(d0, d1, Next(g0))
      requires Explained(d0, tweak, history, g0, entriesPerGeneration)
      ensures Explained(d1, tweak, history, Next(g0), 0)
    {
      hide Bit, Wiped, Hits;
      forall w: nat, b: Index | 2 * w + 1 < |d1| && Cell(d1, w, b) != 0
        ensures Owned(tweak, history, 0, |d1|, w, b, Age(Cell(d1, w, b), Next(g0)))
      {
        assert WipedAt(d0, d1, Next(g0), w);
        WipedCell(d0[2 * w], d0[2 * w + 1], Next(g0), b);
        var k := Age(Cell(d0, w, b), g0);
        assert Owned(tweak, history, entriesPerGeneration, |d0|, w, b, k);
        var j, n: nat :| OwnedBy(tweak, history, entriesPerGeneration, |d0|, w, b, k, j, n);
        assert OwnedBy(tweak, history, 0, |d1|, w, b, k + 1, j, n);
      }
    }

    /** Keys at most one generation old survive the wipe, one generation older. */
    lemma CoversWipe(d0: seq<Word>, d1: seq<Word>, g0: int, key: Key, k: int)
      requires Paired(d0) && |d1| == |d0| && 1 <= g0 <= 3 && 0 <= k <= 1
      requires AllWiped(d0, d1, Next(g0))
      requires Covers(d0, tweak, key, g0, k)
      ensures Covers(d1, tweak, key, Next(g0), k + 1)
    {
      hide Bit, Wiped, BitIndex;
      forall n: nat | n < hashFuncs
        ensures MarksHash(d1, hash(n, tweak, key), Next(g0), k + 1)
      {
        var h := hash(n, tweak, key);
        assert MarksHash(d0, h, g0, k);
        var w := Pair(h, |d0|);
        assert WipedAt(d0, d1, Next(g0), w);
        WipedCell(d0[2 * w], d0[2 * w + 1], Next(g0), BitIndex(h));
      }
    }

    /** Adds a key, starting a new generation first when the current one is full. */
    method Insert(key: Key)
      requires Valid()
      modifies this
      ensures Valid() && history == old(history) + [key] && tweak == old(tweak)
      ensures entriesThisGeneration ==
        if old(entriesThisGeneration) == entriesPerGeneration then 1 else old(entriesThisGeneration) + 1
    {
      hide Cell, Bit, Remembers, Marked, Covers, Explained, ExplainedBut;
      if entriesThisGeneration == entriesPerGeneration { Roll(); }
      ghost var h0 := history;
      NothingMarked(data, tweak, h0, generation, entriesThisGeneration, key);
      entriesThisGeneration := entriesThisGeneration + 1;
      ghost var c := entriesThisGeneration;
      for n := 0 to hashFuncs
        invariant Paired(data) && 1 <= generation <= 3 && tweak == old(tweak) && history == h0
        invariant entriesThisGeneration == c
        invariant Remembers(data, tweak, h0, generation, c - 1)
        invariant CoversFirst(data, tweak, key, generation, n)
        invariant ExplainedBut(data, tweak, h0, generation, c - 1, key, n)
      {
        var h := hash(n, tweak, key);
        var w := Pair(h, |data|);
        PairFits(h, |data|);
        MarkRemembers(data, h, generation, h0, c - 1);
        MarkCovers(data, h, generation, key, n);
        MarkExplained(data, generation, h0, c - 1, key, n);
        data := Marked(data, w, BitIndex(h), generation);
      }
      history := history + [key];
      InsertRemembers(h0, key);
      InsertExplained(h0, key);
    }

    /** The set cells are explained by `past`, or carry the current generation for one of `n` hashes of `key`. */
    ghost predicate ExplainedBut(d: seq<Word>, seed: nat, past: seq<Key>, gen: int, current: nat, key: Key, n: nat)
      requires Paired(d)
    {
      forall w: nat, b: Index :: 2 * w + 1 < |d| && Cell(d, w, b) != 0 ==>
        || Owned(seed, past, current, |d|, w, b, Age(Cell(d, w, b), gen))
        || (Cell(d, w, b) == gen && HitsBelow(seed, key, n, |d|, w, b))
    }

    ghost predicate HitsBelow(seed: nat, key: Key, n: nat, size: nat, w: nat, b: Index)
      requires size >= 2
    {
      exists m: nat :: m < n && Hits(seed, key, m, size, w, b)
    }

    lemma NothingMarked(d: seq<Word>, seed: nat, past: seq<Key>, gen: int, current: nat, key: Key)
      requires Paired(d) && Explained(d, seed, past, gen, current)
      ensures ExplainedBut(d, seed, past, gen, current, key, 0)
    {
      hide Cell, Owned;
    }

    lemma MarkExplained(d: seq<Word>, gen: int, past: seq<Key>, c: nat, key: Key, n: nat)
      requires Paired(d) && 1 <= gen <= 3 && n < hashFuncs && ExplainedBut(d, tweak, past, gen, c, key, n)
      requires 2 * Pair(hash(n, tweak, key), |d|) + 1 < |d|
      ensures
        var h := hash(n, tweak, key);
        ExplainedBut(Marked(d, Pair(h, |d|), BitIndex(h), gen), tweak, past, gen, c, key, n + 1)
    {
      hide Cell, Marked, Owned, BitIndex, Pair;
      var h := hash(n, tweak, key);
      var d1 := Marked(d, Pair(h, |d|), BitIndex(h), gen);
      forall w: nat, b: Index | 2 * w + 1 < |d1| && Cell(d1, w, b) != 0
        ensures
          || Owned(tweak, past, c, |d1|, w, b, Age(Cell(d1, w, b), gen))
          || (Cell(d1, w, b) == gen && HitsBelow(tweak, key, n + 1, |d1|, w, b))
      {
        MarkedCell(d, Pair(h, |d|), BitIndex(h), gen, w, b);
        if w == Pair(h, |d|) && b == BitIndex(h) {
          assert Hits(tweak, key, n, |d|, w, b);
        } else if HitsBelow(tweak, key, n, |d|, w, b) {
          var m: nat :| m < n && Hits(tweak, key, m, |d|, w, b);
          assert m < n + 1;
        }
      }
    }

    lemma InsertExplained(past: seq<Key>, key: Key)
      requires Paired(data) && 1 <= generation <= 3 && entriesThisGeneration >= 1
      requires ExplainedBut(data, tweak, past, generation, entriesThisGeneration - 1, key, hashFuncs)
      ensures Explained(data, tweak, past + [key], generation, entriesThisGeneration)
    {
      hide Cell, Hits;
      var now, c := past + [key], entriesThisGeneration;
      forall w: nat, b: Index | 2 * w + 1 < |data| && Cell(data, w, b) != 0
        ensures Owned(tweak, now, c, |data|, w, b, Age(Cell(data, w, b), generation))
      {
        var k := Age(Cell(data, w, b), generation);
        if Owned(tweak, past, c - 1, |data|, w, b, k) {
          var j, n: nat :| OwnedBy(tweak, past, c - 1, |data|, w, b, k, j, n);
          assert OwnedBy(tweak, now, c, |data|, w, b, k, j, n);
        } else {
          var m: nat :| m < hashFuncs && Hits(tweak, key, m, |data|, w, b);
          assert OwnedBy(tweak, now, c, |data|, w, b, k, |past|, m);
        }
      }
    }

    /** The first `n` hashes of a key carry the current generation. */
    ghost predicate CoversFirst(d: seq<Word>, seed: nat, key: Key, gen: int, n: nat)
      requires Paired(d)
    {
      forall m: nat :: m < n ==> MarksHash(d, hash(m, seed, key), gen, 0)
    }

    /** Writing the current generation anywhere makes no cell older. */
    lemma MarkKeeps(d: seq<Word>, h: bv32, gen: int, other: bv32, k: int)
      requires Paired(d) && 1 <= gen <= 3 && 2 * Pair(h, |d|) + 1 < |d| && 0 <= k
      ensures MarksHash(d, other, gen, k) ==> MarksHash(Marked(d, Pair(h, |d|), BitIndex(h), gen), other, gen, k)
      ensures MarksHash(Marked(d, Pair(h, |d|), BitIndex(h), gen), h, gen, 0)
    {
      hide Cell, Marked;
      PairFits(other, |d|);
      MarkedCell(d, Pair(h, |d|), BitIndex(h), gen, Pair(other, |d|), BitIndex(other));
      MarkedCell(d, Pair(h, |d|), BitIndex(h), gen, Pair(h, |d|), BitIndex(h));
    }

    lemma MarkRemembers(d: seq<Word>, h: bv32, gen: int, past: seq<Key>, c: nat)
      requires Paired(d) && 1 <= gen <= 3 && 2 * Pair(h, |d|) + 1 < |d|
      requires Remembers(d, tweak, past, gen, c)
      ensures Remembers(Marked(d, Pair(h, |d|), BitIndex(h), gen), tweak, past, gen, c)
    {
      hide Marked, MarksHash;
      var d1 := Marked(d, Pair(h, |d|), BitIndex(h), gen);
      forall j | 0 <= j < |past| && j >= |past| - c - 2 * entriesPerGeneration
        ensures Covers(d1, tweak, past[j], gen, AgeOf(j, |past|, c))
      {
        var k := AgeOf(j, |past|, c);
        assert Covers(d, tweak, past[j], gen, k);
        forall n: nat | n < hashFuncs
          ensures MarksHash(d1, hash(n, tweak, past[j]), gen, k)
        {
          MarkKeeps(d, h, gen, hash(n, tweak, past[j]), k);
        }
      }
    }

    lemma MarkCovers(d: seq<Word>, h: bv32, gen: int, key: Key, n: nat)
      requires Paired(d) && 1 <= gen <= 3 && 2 * Pair(h, |d|) + 1 < |d| && h == hash(n, tweak, key)
      requires CoversFirst(d, tweak, key, gen, n)
      ensures CoversFirst(Marked(d, Pair(h, |d|), BitIndex(h), gen), tweak, key, gen, n + 1)
    {
      hide Marked, MarksHash;
      forall m: nat | m < n + 1
        ensures MarksHash(Marked(d, Pair(h, |d|), BitIndex(h), gen), hash(m, tweak, key), gen, 0)
      {
        MarkKeeps(d, h, gen, hash(m, tweak, key), 0);
      }
    }

    lemma InsertRemembers(past: seq<Key>, key: Key)
      requires Paired(data) && entriesThisGeneration >= 1
      requires Remembers(data, tweak, past, generation, entriesThisGeneration - 1)
      requires CoversFirst(data, tweak, key, generation, hashFuncs)
      ensures Remembers(data, tweak, past + [key], generation, entriesThisGeneration)
    {
      hide MarksHash;
      var now, c := past + [key], entriesThisGeneration;
      forall j | 0 <= j < |now| && j >= |now| - c - 2 * entriesPerGeneration
        ensures Covers(data, tweak, now[j], generation, AgeOf(j, |now|, c))
      {
        if j < |past| {
          assert Covers(data, tweak, past[j], generation, AgeOf(j, |past|, c - 1));
        }
      }
    }
  }
}
