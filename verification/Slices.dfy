/**
 Pieces of pieces of sequences.
 */
module Slices {

  lemma SliceOfSlice<T>(b: seq<T>, start: nat, end: nat, i: nat, j: nat)
    requires start <= end <= |b| && i <= j <= end - start
    ensures b[start..end][i..j] == b[start + i..start + j]
  {
    var x, y := b[start..end][i..j], b[start + i..start + j];
    assert |x| == |y|;
    forall k | 0 <= k < |x| ensures x[k] == y[k] {
      assert x[k] == b[start..end][i + k];
      assert y[k] == b[start + (i + k)];
    }
  }

  lemma SliceOfTail<T>(b: seq<T>, start: nat, i: nat, j: nat)
    requires i <= j && start + j <= |b|
    ensures b[start..][i..j] == b[start + i..start + j]
  {
    SliceOfSlice(b, start, |b|, i, j);
    assert b[start..|b|] == b[start..];
  }

  lemma SliceOfPrefix<T>(b: seq<T>, end: nat, i: nat, j: nat)
    requires i <= j <= end <= |b|
    ensures b[..end][i..j] == b[i..j]
  {
    SliceOfSlice(b, 0, end, i, j);
    assert b[0..end] == b[..end];
  }

  lemma SuffixOfPrefix<T>(b: seq<T>, i: nat, j: nat)
    requires i <= j <= |b|
    ensures b[..j][i..] == b[i..j]
  {
    SliceOfPrefix(b, j, i, j);
    assert b[..j][i..j] == b[..j][i..];
  }

  lemma SliceBehind<T>(a: seq<T>, b: seq<T>, i: nat, j: nat)
    requires i <= j <= |b|
    ensures (a + b)[|a| + i..|a| + j] == b[i..j]
  {
  }

  lemma JoinSlices<T>(b: seq<T>, i: nat, j: nat, k: nat)
    requires i <= j <= k <= |b|
    ensures b[i..j] + b[j..k] == b[i..k]
  {
  }
}
