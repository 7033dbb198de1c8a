/**
 * The static partition of processParallel: `threadCount` contiguous,
 * half-open ranges over [0, size), the first `size % threadCount` of them
 * one element longer than the rest.
 */
module Partition {

  /** Length of chunk `i`: the base size, plus one for the first `size % n` chunks. */
  function ChunkLen(size: nat, n: nat, i: nat): (len: nat)
    requires n >= 1
    ensures len == size / n || len == size / n + 1
    ensures len == size / n + 1 <==> i < size % n
  {
    size / n + (if i < size % n then 1 else 0)
  }

  /**
   * Start of chunk `i` (and end of chunk `i - 1`): the value `startIndex`
   * holds when the partition loop begins iteration `i`.
   */
  function ChunkStart(size: nat, n: nat, i: nat): nat
    requires n >= 1
  {
    if i == 0 then 0 else ChunkStart(size, n, i - 1) + ChunkLen(size, n, i - 1)
  }

  function Min(a: nat, b: nat): nat { if a <= b then a else b }

  /** Closed form: `i` base-size chunks plus one extra element per remainder chunk so far. */
  lemma {:induction false} ChunkStartClosedForm(size: nat, n: nat, i: nat)
    requires n >= 1
    ensures ChunkStart(size, n, i) == i * (size / n) + Min(i, size % n)
  {
    if i > 0 {
      ChunkStartClosedForm(size, n, i - 1);
      assert i * (size / n) == (i - 1) * (size / n) + size / n;
    }
  }

  /** The first range starts at 0 and the last one ends exactly at `size`. */
  lemma PartitionEndsAtSize(size: nat, n: nat)
    requires n >= 1
    ensures ChunkStart(size, n, 0) == 0
    ensures ChunkStart(size, n, n) == size
  {
    ChunkStartClosedForm(size, n, n);
  }

  /** Starts never decrease, so the ranges are ordered and never have negative length. */
  lemma {:induction false} ChunkStartMonotone(size: nat, n: nat, i: nat, j: nat)
    requires n >= 1
    requires i <= j
    ensures ChunkStart(size, n, i) <= ChunkStart(size, n, j)
  {
    if i < j {
      ChunkStartMonotone(size, n, i, j - 1);
    }
  }

  /** No range reaches past the end of the input. */
  lemma ChunkWithinBounds(size: nat, n: nat, i: nat)
    requires n >= 1
    requires i < n
    ensures ChunkStart(size, n, i) <= ChunkStart(size, n, i + 1) <= size
  {
    ChunkStartMonotone(size, n, i + 1, n);
    PartitionEndsAtSize(size, n);
  }

  /** Any two chunk lengths differ by at most one. */
  lemma ChunkLensBalanced(size: nat, n: nat, i: nat, j: nat)
    requires n >= 1
    ensures ChunkLen(size, n, i) - ChunkLen(size, n, j) <= 1
  {
  }

  /** With more threads than students, every chunk from index `size` on is empty. */
  lemma TrailingChunksEmpty(size: nat, n: nat, i: nat)
    requires n > size
    requires size <= i < n
    ensures ChunkStart(size, n, i) == ChunkStart(size, n, i + 1) == size
  {
    assert size / n == 0 && size % n == size;
    ChunkStartClosedForm(size, n, i);
    assert i * (size / n) == 0;
    assert ChunkLen(size, n, i) == 0;
  }

  /** Distinct ranges are disjoint: no index lies in two of them. */
  lemma ChunksDisjoint(size: nat, n: nat, i: nat, j: nat, k: nat)
    requires n >= 1
    requires ChunkStart(size, n, i) <= k < ChunkStart(size, n, i + 1)
    requires ChunkStart(size, n, j) <= k < ChunkStart(size, n, j + 1)
    ensures i == j
  {
    if i < j {
      ChunkStartMonotone(size, n, i + 1, j);
    } else if j < i {
      ChunkStartMonotone(size, n, j + 1, i);
    }
  }

  /** The ranges cover [0, size): every index lies in one of the `n` of them. */
  lemma PartitionCovers(size: nat, n: nat, k: nat)
    requires n >= 1
    requires k < size
    ensures exists i :: 0 <= i < n && ChunkStart(size, n, i) <= k < ChunkStart(size, n, i + 1)
  {
    PartitionEndsAtSize(size, n);
    var i := 0;
    while ChunkStart(size, n, i + 1) <= k
      invariant 0 <= i < n
      invariant ChunkStart(size, n, i) <= k
      decreases n - i
    {
      if i + 1 == n {
        assert false;
      }
      i := i + 1;
    }
  }
}
