/** The differential coding of transaction indexes in a block transactions request. */
module BlockRequests {

  const UINT16_MAX: nat := 0xffff
  const U64: int := 0x1_0000_0000_0000_0000

  datatype Decoded = Failure | Indexes(indexes: seq<nat>)

  predicate Fits(indexes: seq<nat>) {
    forall i :: 0 <= i < |indexes| ==> indexes[i] <= UINT16_MAX
  }

  predicate Increasing(indexes: seq<nat>) {
    forall i :: 0 < i < |indexes| ==> indexes[i - 1] < indexes[i]
  }

  /** The difference written for one index, as an unsigned 64-bit number. */
  function Difference(indexes: seq<nat>, i: nat): nat
    requires i < |indexes|
  {
    (indexes[i] - if i == 0 then 0 else indexes[i - 1] + 1) % U64
  }

  function Encode(indexes: seq<nat>): seq<nat> {
    seq(|indexes|, i requires 0 <= i < |indexes| => Difference(indexes, i))
  }

  /** Where the next difference starts from; the running offset has 16 bits. */
  function Offset(xs: seq<nat>): nat {
    if xs == [] then 0 else (xs[|xs| - 1] + 1) % (UINT16_MAX + 1)
  }

  /** The indexes after the first `j` differences, or failure. */
  function DecodeUpTo(diffs: seq<nat>, j: nat): Decoded
    requires j <= |diffs|
  {
    if j == 0 then Indexes([]) else
      match DecodeUpTo(diffs, j - 1)
      case Failure => Failure
      case Indexes(xs) =>
        if diffs[j - 1] + Offset(xs) > UINT16_MAX then Failure else Indexes(xs + [diffs[j - 1] + Offset(xs)])
  }

  function Decode(diffs: seq<nat>): Decoded {
    if exists i :: 0 <= i < |diffs| && diffs[i] > UINT16_MAX then Failure
    else DecodeUpTo(diffs, |diffs|)
  }

  /** Adding the offset undoes taking the difference. */
  lemma OneIndex(indexes: seq<nat>, j: nat)
    requires Fits(indexes) && Increasing(indexes) && j < |indexes|
    ensures Difference(indexes, j) + Offset(indexes[..j]) == indexes[j]
  {
    if j > 0 {
      assert indexes[j - 1] < indexes[j];
      assert indexes[..j][j - 1] == indexes[j - 1];
    }
  }

  lemma {:induction false} DecodePrefix(indexes: seq<nat>, j: nat)
    requires Fits(indexes) && Increasing(indexes) && j <= |indexes|
    ensures DecodeUpTo(Encode(indexes), j) == Indexes(indexes[..j])
  {
    hide Difference, Offset, Increasing;
    if j > 0 {
      DecodePrefix(indexes, j - 1);
      OneIndex(indexes, j - 1);
      assert Encode(indexes)[j - 1] == Difference(indexes, j - 1);
      assert indexes[..j] == indexes[..j - 1] + [indexes[j - 1]];
    }
  }

  /** A request survives the round trip exactly when its indexes strictly increase. */
  lemma RequestRoundTrip(indexes: seq<nat>)
    requires Fits(indexes)
    ensures Decode(Encode(indexes)) == Indexes(indexes) <==> Increasing(indexes)
    ensures !Increasing(indexes) ==> Decode(Encode(indexes)) == Failure
  {
    var diffs := Encode(indexes);
    if Increasing(indexes) {
      DecodePrefix(indexes, |indexes|);
      assert indexes[..|indexes|] == indexes;
      forall i | 0 <= i < |diffs|
        ensures diffs[i] <= UINT16_MAX
      {
        assert i > 0 ==> indexes[i - 1] < indexes[i];
      }
    } else {
      var i :| 0 < i < |indexes| && !(indexes[i - 1] < indexes[i]);
      assert diffs[i] > UINT16_MAX;
    }
  }

  method WriteIndexes(indexes: seq<nat>) returns (stream: seq<nat>)
    ensures stream == Encode(indexes)
  {
    stream := [];
    for i := 0 to |indexes|
      invariant |stream| == i && forall k :: 0 <= k < i ==> stream[k] == Difference(indexes, k)
    {
      var index := (indexes[i] - if i == 0 then 0 else indexes[i - 1] + 1) % U64;
      stream := stream + [index];
    }
  }

  /** Reads the raw differences, growing the vector by at most a thousand at a time. */
  method ReadDifferences(stream: seq<nat>) returns (ok: bool, indexes: seq<nat>)
    ensures ok <==> forall i :: 0 <= i < |stream| ==> stream[i] <= UINT16_MAX
    ensures ok ==> indexes == stream
  {
    indexes := [];
    var i, size := 0, 0;
    while size < |stream|
      invariant i == size == |indexes| <= |stream| && indexes == stream[..i]
      invariant forall k :: 0 <= k < i ==> stream[k] <= UINT16_MAX
      decreases |stream| - size
    {
      size := if 1000 + size <= |stream| then 1000 + size else |stream|;
      while i < size
        invariant i == |indexes| <= size <= |stream| && indexes == stream[..i]
        invariant forall k :: 0 <= k < i ==> stream[k] <= UINT16_MAX
      {
        if stream[i] > UINT16_MAX {
          return false, indexes;
        }
        indexes := indexes + [stream[i]];
        i := i + 1;
      }
    }
    ok := true;
  }

  method ReadIndexes(stream: seq<nat>) returns (r: Decoded)
    ensures r == Decode(stream)
  {
    hide Offset;
    var ok: bool, indexes: seq<nat> := ReadDifferences(stream);
    if !ok {
      return Failure;
    }
    var offset: nat := 0;
    OffsetIs(indexes, 0);
    for j := 0 to |indexes|
      invariant |indexes| == |stream|
      invariant forall k :: j <= k < |indexes| ==> indexes[k] == stream[k]
      invariant DecodeUpTo(stream, j) == Indexes(indexes[..j])
      invariant offset == Offset(indexes[..j])
    {
      ghost var before := indexes[..j];
      if indexes[j] + offset > UINT16_MAX {
        FailureStays(stream, j + 1, |stream|);
        return Failure;
      }
      indexes := indexes[j := indexes[j] + offset];
      offset := (indexes[j] + 1) % (UINT16_MAX + 1);
      assert indexes[..j + 1] == before + [indexes[j]];
      OffsetIs(indexes, j + 1);
    }
    assert indexes[..|indexes|] == indexes;
    r := Indexes(indexes);
  }

  lemma OffsetIs(indexes: seq<nat>, j: nat)
    requires j <= |indexes|
    ensures Offset(indexes[..j]) == if j == 0 then 0 else (indexes[j - 1] + 1) % (UINT16_MAX + 1)
  {
  }

  lemma {:induction false} FailureStays(diffs: seq<nat>, j: nat, k: nat)
    requires j <= k <= |diffs| && DecodeUpTo(diffs, j) == Failure
    ensures DecodeUpTo(diffs, k) == Failure
  {
    if j < k {
      FailureStays(diffs, j, k - 1);
    }
  }
}
