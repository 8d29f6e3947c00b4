/** `fetch_email_headers_batch` (emailcleanup.py lines 184-191): the id list
    cut into consecutive slices of `batch_size`, the last one possibly short.
    The deletion pass slices its candidates the same way. */
module Batching {

  function Min(a: int, b: int): int {
    if a <= b then a else b
  }

  /** `b` is batch number `k` of `xs` cut into slices of `size`: the items
      from `k * size` up to the next `size` of them, fewer at the end. */
  ghost predicate IsBatchOf<T>(xs: seq<T>, size: nat, k: nat, b: seq<T>) {
    k * size < |xs| && b == xs[k * size..Min(k * size + size, |xs|)]
  }

  /** The concatenation of a sequence of batches, last batch last. */
  function Flatten<T>(batches: seq<seq<T>>): seq<T> {
    if |batches| == 0 then []
    else Flatten(batches[..|batches| - 1]) + batches[|batches| - 1]
  }

  /** Cuts the list into slices starting at every multiple of the batch
      size, in order. A zero batch size makes the source's range step raise,
      so it needs a positive one. */
  method Partition<T>(xs: seq<T>, size: nat) returns (batches: seq<seq<T>>)
    requires size > 0
    ensures Flatten(batches) == xs
    ensures forall k :: 0 <= k < |batches| ==> IsBatchOf(xs, size, k, batches[k])
    ensures forall k :: 0 <= k < |batches| ==> 0 < |batches[k]| <= size
    ensures forall k :: 0 <= k < |batches| - 1 ==> |batches[k]| == size
    ensures (|batches| - 1) * size < |xs| <= |batches| * size || (|xs| == 0 && batches == [])
    ensures |batches| == (|xs| + size - 1) / size
  {
    batches := [];
    var i := 0;
    while i < |xs|
      invariant i == |batches| * size
      invariant Flatten(batches) == xs[..Min(i, |xs|)]
      invariant forall k :: 0 <= k < |batches| ==> IsBatchOf(xs, size, k, batches[k])
      decreases |xs| - i
    {
      var batch := xs[i..Min(i + size, |xs|)];
      var next := batches + [batch];
      assert next[..|batches|] == batches;
      assert xs[..Min(i + size, |xs|)] == xs[..i] + batch;
      assert forall k :: 0 <= k < |batches| ==> next[k] == batches[k];
      MulSucc(|batches|, size);
      batches := next;
      i := i + size;
    }
    BatchSizes(xs, size, batches);
    BatchCountIsCeiling(|xs|, size, |batches|);
  }

  /** `offset` is where batch number `k` of `xs` starts, or the end of
      `xs` once the batches have run out. */
  ghost predicate StartsBatch<T>(xs: seq<T>, size: nat, k: nat, offset: nat) {
    offset == k * size || offset == |xs|
  }

  /** A loop that starts each slice where the previous one ended cuts
      batch number `k` as its `k`-th slice, and the next slice starts
      where batch `k + 1` does. */
  lemma SliceIsBatch<T>(xs: seq<T>, size: nat, k: nat, offset: nat)
    requires StartsBatch(xs, size, k, offset) && offset < |xs|
    ensures IsBatchOf(xs, size, k, xs[offset..Min(offset + size, |xs|)])
    ensures StartsBatch(xs, size, k + 1, Min(offset + size, |xs|))
  {
    MulSucc(k, size);
  }

  /** The slice description of the batches gives their sizes and count. */
  lemma BatchSizes<T>(xs: seq<T>, size: nat, batches: seq<seq<T>>)
    requires size > 0 && |xs| <= |batches| * size
    requires forall k :: 0 <= k < |batches| ==> IsBatchOf(xs, size, k, batches[k])
    ensures forall k :: 0 <= k < |batches| ==> 0 < |batches[k]| <= size
    ensures forall k :: 0 <= k < |batches| - 1 ==> |batches[k]| == size
    ensures (|batches| - 1) * size < |xs| <= |batches| * size || (|xs| == 0 && batches == [])
  {
    forall k | 0 <= k < |batches|
      ensures 0 < |batches[k]| <= size
    {
      assert IsBatchOf(xs, size, k, batches[k]);
    }
    forall k | 0 <= k < |batches| - 1
      ensures |batches[k]| == size
    {
      assert IsBatchOf(xs, size, k, batches[k]);
      assert IsBatchOf(xs, size, k + 1, batches[k + 1]);
      MulSucc(k, size);
    }
    if |batches| > 0 {
      assert IsBatchOf(xs, size, |batches| - 1, batches[|batches| - 1]);
    }
  }

  lemma MulSucc(a: int, size: int)
    ensures (a + 1) * size == a * size + size
  {
  }

  /** Multiplying by a positive number preserves strict order backwards. */
  lemma MulCancelLess(a: int, b: int, size: int)
    requires size > 0 && a * size < b * size
    ensures a < b
  {
  }

  /** The bounds `Partition` promises on the number of batches pin it down
      as the ceiling of `n / size`. */
  lemma BatchCountIsCeiling(n: nat, size: nat, k: nat)
    requires size > 0
    requires (k - 1) * size < n <= k * size || (n == 0 && k == 0)
    ensures k == (n + size - 1) / size
  {
    var q := (n + size - 1) / size;
    var r := (n + size - 1) % size;
    assert n + size - 1 == q * size + r && 0 <= r < size;
    if n > 0 {
      assert (k - 1) * size == k * size - size;
      assert (k + 1) * size == k * size + size;
      MulCancelLess(k - 1, q, size);
      MulCancelLess(q, k + 1, size);
    }
  }
}
