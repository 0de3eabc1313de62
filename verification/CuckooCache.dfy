/**
 * A cuckoo hash cache with eight slots per element, a packed bitmap of
 * discardable slots, and two insertion epochs.
 */
module CuckooCache {
  import opened Powers
  import opened Limbs

  // ---------------------------------------------------------------- packed flags

  type Byte = x: int | 0 <= x < 256

  predicate Bit(x: nat, k: nat)
    decreases k
  {
    if k == 0 then x % 2 == 1 else Bit(x / 2, k - 1)
  }

  /** `x | (1 << k)`. */
  function SetBit(x: nat, k: nat): nat
    decreases k
  {
    if k == 0 then x / 2 * 2 + 1 else x % 2 + 2 * SetBit(x / 2, k - 1)
  }

  /** `x & ~(1 << k)`. */
  function ClearBit(x: nat, k: nat): nat
    decreases k
  {
    if k == 0 then x / 2 * 2 else x % 2 + 2 * ClearBit(x / 2, k - 1)
  }

  lemma {:induction false} SetBitIs(x: nat, k: nat, j: nat)
    ensures Bit(SetBit(x, k), j) <==> j == k || Bit(x, j)
    decreases k
  {
    if k > 0 && j > 0 { SetBitIs(x / 2, k - 1, j - 1); }
  }

  lemma {:induction false} ClearBitIs(x: nat, k: nat, j: nat)
    ensures Bit(ClearBit(x, k), j) <==> j != k && Bit(x, j)
    decreases k
  {
    if k > 0 && j > 0 { ClearBitIs(x / 2, k - 1, j - 1); }
  }

  /** Setting one bit is or-ing in its power of two. */
  lemma {:induction false} SetBitOrs(x: nat, k: nat)
    ensures SetBit(x, k) == Or(x, Pow2(k))
    decreases k
  {
    if k == 0 {
      OrZero(x / 2);
      OrSymmetric(x / 2, 0);
    } else {
      SetBitOrs(x / 2, k - 1);
    }
  }

  lemma {:induction false} BitsStayBelow(x: nat, k: nat, n: nat)
    requires x < Pow2(n) && k < n
    ensures SetBit(x, k) < Pow2(n) && ClearBit(x, k) < Pow2(n)
    decreases k
  {
    if k > 0 { BitsStayBelow(x / 2, k - 1, n - 1); }
  }

  lemma ByteKept(x: Byte, k: nat)
    requires k < 8
    ensures SetBit(x, k) < 256 && ClearBit(x, k) < 256
  {
    assert Pow2(8) == 256;
    BitsStayBelow(x, k, 8);
  }

  lemma AllOnes(k: nat)
    requires k < 8
    ensures Bit(0xff, k)
  {
    assert Pow2(8) == 256;
    OnesBit(8, k);
  }

  lemma {:induction false} OnesBit(n: nat, k: nat)
    requires k < n
    ensures Bit(Pow2(n) - 1, k)
    decreases k
  {
    assert (Pow2(n) - 1) / 2 == Pow2(n - 1) - 1;
    if k > 0 { OnesBit(n - 1, k - 1); }
  }

  class BitPackedFlags {
    var mem: seq<Byte>

    ghost predicate Holds(size: nat)
      reads this
    {
      8 * |mem| >= size
    }

    ghost predicate IsSet(s: nat)
      requires Holds(s + 1)
      reads this
    {
      Bit(mem[s / 8], s % 8)
    }

    /** Allocates room for `b` flags, all set. */
    constructor (b: nat)
      ensures Holds(b) && forall s :: 0 <= s < b ==> IsSet(s)
    {
      mem := seq((b + 7) / 8, i => 0xff);
      new;
      forall s | 0 <= s < b
        ensures IsSet(s)
      {
        AllOnes(s % 8);
      }
    }

    method SetFlag(s: nat, ghost size: nat)
      requires s < size && Holds(size)
      modifies this
      ensures |mem| == |old(mem)|
      ensures forall t :: 0 <= t < size ==> (IsSet(t) <==> t == s || old(IsSet(t)))
    {
      ByteKept(mem[s / 8], s % 8);
      mem := mem[s / 8 := SetBit(mem[s / 8], s % 8)];
      forall t | 0 <= t < size
        ensures IsSet(t) <==> t == s || old(IsSet(t))
      {
        SetBitIs(old(mem[s / 8]), s % 8, t % 8);
      }
    }

    method UnsetFlag(s: nat, ghost size: nat)
      requires s < size && Holds(size)
      modifies this
      ensures |mem| == |old(mem)|
      ensures forall t :: 0 <= t < size ==> (IsSet(t) <==> t != s && old(IsSet(t)))
    {
      ByteKept(mem[s / 8], s % 8);
      mem := mem[s / 8 := ClearBit(mem[s / 8], s % 8)];
      forall t | 0 <= t < size
        ensures IsSet(t) <==> t != s && old(IsSet(t))
      {
        ClearBitIs(old(mem[s / 8]), s % 8, t % 8);
      }
    }

    method TestFlag(s: nat) returns (b: bool)
      requires Holds(s + 1)
      ensures b <==> IsSet(s)
    {
      b := Bit(mem[s / 8], s % 8);
    }

    /** The flags as a plain sequence. */
    ghost function Flags(size: nat): (f: seq<bool>)
      requires Holds(size)
      reads this
      ensures |f| == size
    {
      seq(size, s requires 0 <= s < size reads this => Holds(s + 1) && IsSet(s))
    }
  }

  // ---------------------------------------------------------------- what the cache holds

  /** The elements in slots that may not be discarded. */
  ghost function Live<E>(table: seq<E>, free: seq<bool>): set<E>
    requires |table| == |free|
  {
    set i | 0 <= i < |table| && !free[i] :: table[i]
  }

  function One(b: bool): nat { if b then 1 else 0 }

  /** The number of live slots of the current epoch. */
  ghost function Current(free: seq<bool>, recent: seq<bool>): nat
    requires |free| == |recent|
  {
    if free == [] then 0
    else Current(free[..|free| - 1], recent[..|free| - 1]) + One(recent[|free| - 1] && !free[|free| - 1])
  }

  lemma {:induction false} CurrentUpdate(free: seq<bool>, recent: seq<bool>, i: nat, f: bool, r: bool)
    requires |free| == |recent| && i < |free|
    ensures Current(free[i := f], recent[i := r]) == Current(free, recent) - One(recent[i] && !free[i]) + One(r && !f)
  {
    var n := |free| - 1;
    if i == n {
      assert free[i := f][..n] == free[..n] && recent[i := r][..n] == recent[..n];
    } else {
      CurrentUpdate(free[..n], recent[..n], i, f, r);
      assert free[i := f][..n] == free[..n][i := f] && recent[i := r][..n] == recent[..n][i := r];
    }
  }

  lemma {:induction false} CurrentNone(free: seq<bool>, recent: seq<bool>)
    requires |free| == |recent| && forall i :: 0 <= i < |free| ==> !recent[i] || free[i]
    ensures Current(free, recent) == 0
  {
    if free != [] { CurrentNone(free[..|free| - 1], recent[..|free| - 1]); }
  }

  lemma CurrentStep(free: seq<bool>, recent: seq<bool>, i: nat)
    requires |free| == |recent| && i < |free|
    ensures Current(free[..i + 1], recent[..i + 1]) == Current(free[..i], recent[..i]) + One(recent[i] && !free[i])
  {
    assert free[..i + 1][..i] == free[..i] && recent[..i + 1][..i] == recent[..i];
  }

  /** Filling a discardable slot adds its element and loses none. */
  lemma LiveFill<E>(table: seq<E>, free: seq<bool>, i: nat, e: E)
    requires |table| == |free| && i < |table| && free[i]
    ensures Live(table[i := e], free[i := false]) == Live(table, free) + {e}
  {
    var t, f := table[i := e], free[i := false];
    forall x
      ensures x in Live(t, f) <==> x in Live(table, free) + {e}
    {
      if x in Live(table, free) {
        var k :| 0 <= k < |table| && !free[k] && table[k] == x;
        assert t[k] == x && !f[k];
      }
      assert t[i] == e && !f[i];
      if x in Live(t, f) {
        var k :| 0 <= k < |t| && !f[k] && t[k] == x;
        if k != i { assert table[k] == x && !free[k]; }
      }
    }
  }

  /** Keeping a slot that already holds the element. */
  lemma LiveKeep<E>(table: seq<E>, free: seq<bool>, i: nat)
    requires |table| == |free| && i < |table|
    ensures Live(table, free[i := false]) == Live(table, free) + {table[i]}
  {
    if free[i] {
      assert table[i := table[i]] == table;
      LiveFill(table, free, i, table[i]);
    } else {
      assert free[i := false] == free;
    }
  }

  /** Swapping an element into a live slot: the one in hand changes, nothing is lost. */
  lemma LiveSwap<E>(table: seq<E>, free: seq<bool>, i: nat, e: E)
    requires |table| == |free| && i < |table| && !free[i]
    ensures Live(table[i := e], free) + {table[i]} == Live(table, free) + {e}
  {
    var t := table[i := e];
    forall x
      ensures x in Live(t, free) + {table[i]} <==> x in Live(table, free) + {e}
    {
      if x in Live(table, free) && x != table[i] {
        var k :| 0 <= k < |table| && !free[k] && table[k] == x;
        assert t[k] == x;
      }
      assert t[i] == e;
      if x in Live(t, free) && x != e {
        var k :| 0 <= k < |t| && !free[k] && t[k] == x;
        assert table[k] == x;
      }
      assert table[i] in Live(table, free);
      assert e in Live(t, free);
    }
  }

  /** Marking slots discardable only shrinks what is held. */
  lemma LiveShrink<E>(table: seq<E>, free: seq<bool>, more: seq<bool>)
    requires |table| == |free| == |more| && forall i :: 0 <= i < |free| && free[i] ==> more[i]
    ensures Live(table, more) <= Live(table, free)
  {
    forall x | x in Live(table, more)
      ensures x in Live(table, free)
    {
      var k :| 0 <= k < |table| && !more[k] && table[k] == x;
      assert !free[k];
    }
  }

  /** Each element with its epoch. */
  ghost function Zip<E>(table: seq<E>, recent: seq<bool>): (z: seq<(E, bool)>)
    requires |table| == |recent|
    ensures |z| == |table|
  {
    seq(|table|, i requires 0 <= i < |table| => (table[i], recent[i]))
  }

  lemma ZipUpdate<E>(table: seq<E>, recent: seq<bool>, i: nat, e: E, r: bool)
    requires |table| == |recent| && i < |table|
    ensures Zip(table[i := e], recent[i := r]) == Zip(table, recent)[i := (e, r)]
  {
  }

  /** Apart from `e`, which is now current, the same elements are held in the same epochs. */
  ghost predicate EpochsKept<E(!new)>(was: set<(E, bool)>, now: set<(E, bool)>, e: E) {
    (e, true) in now && forall x, b :: x != e ==> ((x, b) in now <==> (x, b) in was)
  }

  /** Keeping an element that is found again and making it current. */
  lemma PairsKeep<E(!new)>(table: seq<E>, free: seq<bool>, recent: seq<bool>, i: nat)
    requires |table| == |free| == |recent| && i < |table|
    ensures EpochsKept(Live(Zip(table, recent), free),
                       Live(Zip(table, recent[i := true]), free[i := false]) + {}, table[i])
  {
    var z, f := Zip(table, recent[i := true]), free[i := false];
    assert Live(z, f) + {} == Live(z, f);
    assert z[i] == (table[i], true) && !f[i];
    forall x, b | x != table[i]
      ensures (x, b) in Live(z, f) <==> (x, b) in Live(Zip(table, recent), free)
    {
      if (x, b) in Live(z, f) {
        var k :| 0 <= k < |z| && !f[k] && z[k] == (x, b);
        assert Zip(table, recent)[k] == (x, b) && !free[k];
      }
      if (x, b) in Live(Zip(table, recent), free) {
        var k :| 0 <= k < |z| && !free[k] && Zip(table, recent)[k] == (x, b);
        assert z[k] == (x, b) && !f[k];
      }
    }
  }

  /** 45% of a size, in 32-bit arithmetic. */
  function EpochShare(size: nat): (part: nat)
    ensures 45 * size < BASE ==> 100 * part <= 45 * size < 100 * (part + 1)
  {
    ((45 * size) % BASE) / 100
  }

  /** The slack the counter may have over a full epoch. */
  function Slack(epochSize: nat): nat {
    if epochSize / 16 > 1 then epochSize / 16 else 1
  }

  // ---------------------------------------------------------------- the cache

  function Larger(a: int, b: int): int { if a <= b then b else a }

  /** A 32-bit hash taken as a fraction of the table size. */
  function Locate(h: Limb, size: nat): nat {
    (h * size) / BASE
  }

  lemma LocateInRange(h: Limb, size: nat)
    requires size > 0
    ensures 0 <= Locate(h, size) < size
  {
    MulMonotone(h, BASE - 1, size);
    MulMonotone(0, h, size);
  }

  /** The hashes that select a slot or a later one are those from its share of the hash range on. */
  lemma LocateAtLeast(h: Limb, size: nat, slot: nat)
    requires size > 0
    ensures Locate(h, size) >= slot <==> h * size >= slot * BASE
  {
    LocateInRange(h, size);
    var x := h * size;
    MulMonotone(0, h, size);
    assert x / BASE >= slot <==> x >= slot * BASE;
  }

  /** So every slot of a table of up to 2^32 is selected by some hash. */
  lemma LocateReaches(size: nat, slot: nat) returns (h: Limb)
    requires slot < size <= BASE
    ensures Locate(h, size) == slot
  {
    hide Locate;
    h := LeastHash(size, slot);
    LocateAtLeast(h, size, slot);
    LocateAtLeast(h, size, slot + 1);
    assert (slot + 1) * BASE == slot * BASE + BASE;
  }

  lemma LeastHash(size: nat, slot: nat) returns (h: Limb)
    requires slot < size <= BASE
    ensures slot * BASE <= h * size < slot * BASE + size
  {
    var x := slot * BASE + size - 1;
    MulMonotone(slot, size - 1, BASE);
    MulMonotone(0, slot, BASE);
    assert (size - 1) * BASE == size * BASE - BASE;
    QuotientBelow(x, size);
    h := x / size;
  }

  lemma QuotientBelow(x: nat, size: nat)
    requires size > 0 && x < BASE * size
    ensures 0 <= x / size < BASE && x - size < (x / size) * size <= x
  {
    var q := x / size;
    assert q * size <= x < q * size + size;
    if q >= BASE { MulMonotone(BASE, q, size); }
    if q < 0 { MulMonotone(q, -1, size); }
  }

  /** The flags once every slot of the older epoch has been released. */
  ghost function Aged(free: seq<bool>, recent: seq<bool>): (f: seq<bool>)
    requires |free| == |recent|
    ensures |f| == |free|
  {
    seq(|free|, i requires 0 <= i < |free| => free[i] || !recent[i])
  }

  lemma AgedFrees(free: seq<bool>, recent: seq<bool>)
    requires |free| == |recent|
    ensures forall i :: 0 <= i < |free| && free[i] ==> Aged(free, recent)[i]
  {
  }

  class Cache<E(==, !new)> {
    /** The eight 32-bit hashes of an element. */
    const hash: (E, nat) -> Limb
    const size: nat
    const epochSize: nat
    const depthLimit: nat
    const flags: BitPackedFlags
    var table: seq<E>
    var epochFlags: seq<bool>
    var counter: nat

    /** The eight slots an element may occupy. */
    function Locs(e: E): (locs: seq<nat>)
      requires size > 0
      ensures |locs| == 8 && forall k :: 0 <= k < 8 ==> locs[k] < size
    {
      forall k: nat { LocateInRange(hash(e, k), size); }
      seq<nat>(8, k requires 0 <= k < 8 => Locate(hash(e, k), size))
    }

    ghost predicate Shape()
      reads this, flags
    {
      size >= 2 && epochSize >= 1 && |table| == |epochFlags| == size && flags.Holds(size)
    }

    ghost function Free(): (f: seq<bool>)
      requires Shape()
      reads this, flags
      ensures |f| == size
    {
      flags.Flags(size)
    }

    /** The elements the cache holds. */
    ghost function Contents(): set<E>
      requires Shape()
      reads this, flags
    {
      Live(table, Free())
    }

    ghost predicate PlacedIn(t: seq<E>, f: seq<bool>)
      requires size > 0 && |t| == |f|
    {
      forall i :: 0 <= i < |t| && !f[i] ==> i in Locs(t[i])
    }

    /** Every live element sits in one of its own slots. */
    ghost predicate Placed()
      requires Shape()
      reads this, flags
    {
      PlacedIn(table, Free())
    }

    ghost function Load(): nat
      requires Shape()
      reads this, flags
    {
      Current(Free(), epochFlags) + counter
    }

    ghost predicate Valid()
      reads this, flags
    {
      Shape() && Placed() && Load() <= epochSize + Slack(epochSize)
    }

    /** Sets up an empty cache. An epoch is 45% of the size, rounded down, while 45 times the size fits in 32 bits. */
    constructor (hash: (E, nat) -> Limb, newSize: nat, depthLimit: nat, blank: E)
      requires newSize < BASE
      ensures Valid() && fresh(flags) && Contents() == {} && this.hash == hash
      ensures size == if newSize < 2 then 2 else newSize
      ensures this.depthLimit == depthLimit && counter == epochSize
      ensures epochSize >= 1 && (newSize <= 95443717 ==> epochSize == 1 || 100 * epochSize <= 45 * size)
      ensures newSize <= 95443717 ==> 45 * size < 100 * (epochSize + 1)
    {
      this.hash, this.depthLimit := hash, depthLimit;
      var n := if newSize < 2 then 2 else newSize;
      var part := EpochShare(n);
      this.size := n;
      epochSize := if part < 1 then 1 else part;
      counter := if part < 1 then 1 else part;
      flags := new BitPackedFlags(n);
      table, epochFlags := seq(n, i => blank), seq(n, i => false);
      new;
      StartsEmpty();
    }

    lemma StartsEmpty()
      requires Shape() && counter == epochSize
      requires forall i :: 0 <= i < size ==> flags.IsSet(i) && !epochFlags[i]
      ensures Valid() && Contents() == {}
    {
      CurrentNone(Free(), epochFlags);
    }

    method AllowErase(n: nat)
      requires Shape() && n < size
      modifies flags
      ensures Shape() && Free() == old(Free())[n := true]
    {
      ghost var was := Free();
      flags.SetFlag(n, size);
      forall t | 0 <= t < size
        ensures Free()[t] == was[n := true][t]
      {
        assert was[t] == old(flags.IsSet(t));
        assert Free()[t] == flags.IsSet(t);
      }
      SameFlags(Free(), was[n := true]);
    }

    method PleaseKeep(n: nat)
      requires Shape() && n < size
      modifies flags
      ensures Shape() && Free() == old(Free())[n := false]
    {
      ghost var was := Free();
      flags.UnsetFlag(n, size);
      forall t | 0 <= t < size
        ensures Free()[t] == was[n := false][t]
      {
        assert was[t] == old(flags.IsSet(t));
        assert Free()[t] == flags.IsSet(t);
      }
      SameFlags(Free(), was[n := false]);
    }

    /** Counts the live slots of the current epoch. */
    method CountRecent() returns (count: nat)
      requires Shape()
      ensures count == Current(Free(), epochFlags)
    {
      hide Current, One;
      count := 0;
      ghost var f, r := Free(), epochFlags;
      CurrentStart(f, r);
      for i := 0 to size
        invariant count == Current(f[..i], r[..i])
      {
        CurrentStep(f, r, i);
        var discardable := flags.TestFlag(i);
        count := count + One(epochFlags[i] && !discardable);
      }
      assert f[..size] == f && r[..size] == r;
    }

    /** Releases the older epoch and starts a new one. */
    method Age()
      requires Shape()
      modifies this, flags
      ensures Shape() && table == old(table) && counter == old(counter)
      ensures Free() == Aged(old(Free()), old(epochFlags))
      ensures forall i :: 0 <= i < size ==> !epochFlags[i]
    {
      ghost var f, r, t := Free(), epochFlags, table;
      for i := 0 to size
        invariant Shape() && table == t && counter == old(counter)
        invariant forall k :: 0 <= k < i ==> !epochFlags[k] && Free()[k] == (f[k] || !r[k])
        invariant forall k :: i <= k < size ==> epochFlags[k] == r[k] && Free()[k] == f[k]
      {
        if epochFlags[i] {
          epochFlags := epochFlags[i := false];
        } else {
          AllowErase(i);
        }
      }
      assert Free() == Aged(f, r);
    }

    /** Runs before each insertion: counts down, and scans when the count runs out. */
    method EpochCheck() returns (ghost aged: bool)
      requires Valid()
      modifies this, flags
      ensures Shape() && Placed() && Load() + 1 <= epochSize + Slack(epochSize)
      ensures table == old(table)
      ensures Free() == if aged then Aged(old(Free()), old(epochFlags)) else old(Free())
      ensures epochFlags == if aged then seq(size, i => false) else old(epochFlags)
      ensures aged <==> old(counter) == 0 && old(Current(Free(), epochFlags)) >= epochSize
      ensures
        if old(counter) > 0 then counter == old(counter) - 1
        else if aged then counter == epochSize
        else counter == Larger(Larger(1, epochSize / 16), epochSize - old(Current(Free(), epochFlags)))
    {
      hide Current;
      aged := false;
      if counter != 0 {
        counter := counter - 1;
        return;
      }
      var count := CountRecent();
      if count >= epochSize {
        Age();
        counter := epochSize;
        aged := true;
        CurrentNone(Free(), epochFlags);
        assert epochFlags == seq(size, i => false);
      } else {
        var wait := epochSize - count;
        var least := if epochSize / 16 > wait then epochSize / 16 else wait;
        counter := if least > 1 then least else 1;
      }
    }

    /** Looks for an element among its own slots. */
    method FindSlot(e: E) returns (found: bool, loc: nat)
      requires Shape()
      ensures found ==> loc in Locs(e) && loc < size && table[loc] == e
      ensures !found ==> forall k :: 0 <= k < 8 ==> table[Locs(e)[k]] != e
    {
      var locs := Locs(e);
      for i := 0 to 8
        invariant forall k :: 0 <= k < i ==> table[locs[k]] != e
      {
        if table[locs[i]] == e { return true, locs[i]; }
      }
      return false, 0;
    }

    /** Looks for a discardable slot. */
    method FindFree(locs: seq<nat>) returns (found: bool, loc: nat)
      requires Shape() && |locs| == 8 && forall k :: 0 <= k < 8 ==> locs[k] < size
      ensures found ==> loc in locs && loc < size && Free()[loc]
      ensures !found ==> forall k :: 0 <= k < 8 ==> !Free()[locs[k]]
    {
      for i := 0 to 8
        invariant forall k :: 0 <= k < i ==> !Free()[locs[k]]
      {
        var b := flags.TestFlag(locs[i]);
        if b { return true, locs[i]; }
      }
      return false, 0;
    }

    /** The slot after the first that equals `last`, or the second slot when none does. */
    method NextLoc(locs: seq<nat>, last: nat) returns (loc: nat, ghost at: nat)
      requires |locs| == 8
      ensures at <= 8 && last !in locs[..at] && loc == locs[(at + 1) % 8]
      ensures at < 8 ==> locs[at] == last
      ensures loc in locs && (last !in locs ==> loc == locs[1])
    {
      var i := 0;
      while i < 8 && locs[i] != last
        invariant 0 <= i <= 8 && last !in locs[..i]
      {
        assert locs[..i + 1] == locs[..i] + [locs[i]];
        i := i + 1;
      }
      at := i;
      loc := locs[(1 + i) % 8];
    }

    /** Whether an element is stored; optionally marks its slot discardable. */
    method Contains(e: E, erase: bool) returns (found: bool, ghost loc: nat)
      requires Valid()
      modifies flags
      ensures Valid()
      ensures found <==> exists k :: 0 <= k < 8 && table[Locs(e)[k]] == e
      ensures e in old(Contents()) ==> found
      ensures found ==> loc < size && table[loc] == e && loc in Locs(e)
      ensures Free() == if found && erase then old(Free())[loc := true] else old(Free())
    {
      hide Current, Live;
      ghost var f := Free();
      var at;
      found, at := FindSlot(e);
      loc := at;
      LiveFound(e);
      if found && erase {
        AllowErase(at);
        CurrentUpdate(f, epochFlags, at, true, epochFlags[at]);
        assert epochFlags[at := epochFlags[at]] == epochFlags;
      }
    }

    /** A live element is found at one of its slots. */
    lemma LiveFound(e: E)
      requires Shape() && Placed()
      ensures e in Contents() ==> exists k :: 0 <= k < 8 && table[Locs(e)[k]] == e
    {
      if e in Contents() {
        var i :| 0 <= i < size && !Free()[i] && table[i] == e;
        var k :| 0 <= k < 8 && Locs(e)[k] == i;
      }
    }

    /** None of the element's slots is discardable. */
    ghost predicate Crowded(f: seq<bool>, e: E)
      requires size > 0 && |f| == size
    {
      forall k :: 0 <= k < 8 ==> !f[Locs(e)[k]]
    }

    /** The elements held, each with its epoch. */
    ghost function Pairs(): set<(E, bool)>
      requires Shape()
      reads this, flags
    {
      Live(Zip(table, epochFlags), Free())
    }

    /**
     * Inserts an element, displacing others at most `depthLimit` times.
     * `kept` is what epoch ageing left. Either everything kept and the new
     * element are held, or exactly `dropped`, the last one displaced, may be
     * missing. `tried` lists the elements that found no discardable slot, the
     * new one first; only after `depthLimit` of them is one dropped. The new
     * element belongs to the current epoch, everyone else stays in their own.
     */
    method Insert(e: E)
      returns (ghost aged: bool, ghost stored: bool, ghost dropped: E, ghost droppedEpoch: bool, ghost tried: seq<E>)
      requires Valid()
      modifies this, flags
      ensures Valid()
      ensures aged <==> old(counter) == 0 && old(Current(Free(), epochFlags)) >= epochSize
      ensures var kept := Live(old(table), if aged then Aged(old(Free()), old(epochFlags)) else old(Free()));
        kept <= old(Contents()) && Contents() + (if stored then {} else {dropped}) == kept + {e}
      ensures
        var free := if aged then Aged(old(Free()), old(epochFlags)) else old(Free());
        && (forall k :: 0 <= k < |tried| ==> Crowded(free, tried[k])) && (tried != [] ==> tried[0] == e)
        && |tried| <= depthLimit && (!stored ==> |tried| == depthLimit)
        && ((exists k :: 0 <= k < 8 && old(table)[Locs(e)[k]] == e) ==> stored)
      ensures
        var free := if aged then Aged(old(Free()), old(epochFlags)) else old(Free());
        var epochs := if aged then seq(size, i => false) else old(epochFlags);
        EpochsKept(Live(Zip(old(table), epochs), free),
                   Pairs() + (if stored then {} else {(dropped, droppedEpoch)}), e)
    {
      hide Current, Live, Aged, PlacedIn, Locs, BitPackedFlags.Flags, Slack, Zip, EpochsKept, Crowded;
      droppedEpoch, tried := true, [];
      aged := EpochCheck();
      AgedFrees(old(Free()), old(epochFlags));
      LiveShrink(old(table), old(Free()), Free());
      stored, dropped := true, e;
      ghost var f0, r0 := Free(), epochFlags;
      var found, loc := FindSlot(e);
      if found {
        Kept(table, f0, r0, loc);
        PairsKeep(table, f0, r0, loc);
        PleaseKeep(loc);
        epochFlags := epochFlags[loc := true];
      } else {
        stored, dropped, droppedEpoch, tried := Displace(e);
      }
    }

    /** The displacement loop for an element that is not stored yet. */
    method Displace(e: E) returns (ghost stored: bool, ghost dropped: E, ghost droppedEpoch: bool, ghost tried: seq<E>)
      requires Shape() && Placed() && Load() + 1 <= epochSize + Slack(epochSize)
      modifies this, flags
      ensures Valid()
      ensures Contents() + (if stored then {} else {dropped}) == old(Contents()) + {e}
      ensures (forall k :: 0 <= k < |tried| ==> Crowded(old(Free()), tried[k])) && (tried != [] ==> tried[0] == e)
      ensures |tried| <= depthLimit && (!stored ==> |tried| == depthLimit)
      ensures EpochsKept(old(Pairs()), Pairs() + (if stored then {} else {(dropped, droppedEpoch)}), e)
    {
      hide Current, Live, Aged, PlacedIn, Locs, BitPackedFlags.Flags, Slack, Zip, EpochsKept, Crowded;
      stored, dropped, droppedEpoch, tried := true, e, true, [];
      ghost var f0, r0, c0 := Free(), epochFlags, counter;
      ghost var kept, pairs := Contents(), Pairs();
      var inHand, epoch := e, true;
      var last: nat := BASE - 1;
      var depth := 0;
      while depth < depthLimit
        invariant Shape() && Placed() && counter == c0
        invariant Free() == f0
        invariant Contents() + {inHand} == kept + {e}
        invariant Pairs() + {(inHand, epoch)} == pairs + {(e, true)}
        invariant |tried| == depth <= depthLimit && (if tried == [] then inHand == e else tried[0] == e)
        invariant forall k :: 0 <= k < |tried| ==> Crowded(f0, tried[k])
        invariant Current(f0, epochFlags) + One(epoch) == Current(f0, r0) + 1
        decreases depthLimit - depth
      {
        var locs := Locs(inHand);
        var free, loc := FindFree(locs);
        if free {
          Filled(table, f0, epochFlags, loc, inHand, epoch);
          table := table[loc := inHand];
          PleaseKeep(loc);
          epochFlags := epochFlags[loc := epoch];
          PairsEnd(pairs, Pairs(), e, {});
          return;
        }
        assert Crowded(f0, inHand) by { CrowdedIs(f0, inHand); }
        tried := tried + [inHand];
        ghost var at;
        last, at := NextLoc(locs, last);
        Swapped(table, f0, epochFlags, last, inHand, epoch);
        var out, outEpoch := table[last], epochFlags[last];
        table, epochFlags := table[last := inHand], epochFlags[last := epoch];
        inHand, epoch := out, outEpoch;
        depth := depth + 1;
      }
      stored, dropped, droppedEpoch := false, inHand, epoch;
      PairsEnd(pairs, Pairs(), e, {(dropped, droppedEpoch)});
    }

    lemma CrowdedIs(f: seq<bool>, e: E)
      requires size > 0 && |f| == size && forall k :: 0 <= k < 8 ==> !f[Locs(e)[k]]
      ensures Crowded(f, e)
    {
    }

    lemma PairsEnd(was: set<(E, bool)>, now: set<(E, bool)>, e: E, rest: set<(E, bool)>)
      requires now + rest == was + {(e, true)}
      ensures EpochsKept(was, now + rest, e)
    {
    }

    lemma Kept(t: seq<E>, f: seq<bool>, r: seq<bool>, loc: nat)
      requires size > 0 && |t| == |f| == |r| == size && PlacedIn(t, f) && loc < size && loc in Locs(t[loc])
      ensures PlacedIn(t, f[loc := false])
      ensures Live(t, f[loc := false]) == Live(t, f) + {t[loc]}
      ensures Current(f[loc := false], r[loc := true]) <= Current(f, r) + 1
    {
      hide Live, Current;
      LiveKeep(t, f, loc);
      CurrentUpdate(f, r, loc, false, true);
    }

    lemma Filled(t: seq<E>, f: seq<bool>, r: seq<bool>, loc: nat, e: E, epoch: bool)
      requires size > 0 && |t| == |f| == |r| == size && PlacedIn(t, f) && loc < size && f[loc] && loc in Locs(e)
      ensures PlacedIn(t[loc := e], f[loc := false])
      ensures Live(t[loc := e], f[loc := false]) == Live(t, f) + {e}
      ensures Current(f[loc := false], r[loc := epoch]) == Current(f, r) + One(epoch)
      ensures Live(Zip(t[loc := e], r[loc := epoch]), f[loc := false]) == Live(Zip(t, r), f) + {(e, epoch)}
    {
      hide Live, Current, Zip;
      LiveFill(t, f, loc, e);
      ZipUpdate(t, r, loc, e, epoch);
      LiveFill(Zip(t, r), f, loc, (e, epoch));
      CurrentUpdate(f, r, loc, false, epoch);
    }

    lemma Swapped(t: seq<E>, f: seq<bool>, r: seq<bool>, loc: nat, e: E, epoch: bool)
      requires size > 0 && |t| == |f| == |r| == size && PlacedIn(t, f) && loc < size && !f[loc] && loc in Locs(e)
      ensures PlacedIn(t[loc := e], f)
      ensures Live(t[loc := e], f) + {t[loc]} == Live(t, f) + {e}
      ensures Current(f, r[loc := epoch]) + One(r[loc]) == Current(f, r) + One(epoch)
      ensures Live(Zip(t[loc := e], r[loc := epoch]), f) + {(t[loc], r[loc])} == Live(Zip(t, r), f) + {(e, epoch)}
    {
      hide Live, Current;
      LiveSwap(t, f, loc, e);
      ZipUpdate(t, r, loc, e, epoch);
      LiveSwap(Zip(t, r), f, loc, (e, epoch));
      CurrentUpdate(f, r, loc, false, epoch);
      assert f[loc := false] == f;
    }
  }

  lemma SameFlags(f: seq<bool>, g: seq<bool>)
    requires |f| == |g| && forall t :: 0 <= t < |f| ==> f[t] == g[t]
    ensures f == g
  {
  }

  lemma CurrentStart(f: seq<bool>, r: seq<bool>)
    requires |f| == |r|
    ensures Current(f[..0], r[..0]) == 0
  {
  }
}
