/**
 * processParallel: filter each chunk of the partition into a private
 * partial result, then append the partials in chunk order. Each task is
 * modelled as computing its partial result; the tasks are run in launch
 * order, which is also the order in which their futures are read.
 */
module ParallelFilter {
  import opened Students
  import opened Filtering
  import opened Partition

  /** The partial result of chunk `i` of an `n`-way partition of `s`. */
  function ChunkFilter(s: seq<Student>, group: string, semester: int, n: nat, i: nat): (partial: seq<Student>)
    requires i < n
    ensures |partial| <= ChunkLen(|s|, n, i)
    ensures forall k :: 0 <= k < |partial| ==> IsScholarship(partial[k], group, semester)
  {
    ChunkWithinBounds(|s|, n, i);
    Filter(s[ChunkStart(|s|, n, i)..ChunkStart(|s|, n, i + 1)], group, semester)
  }

  /**
   * The merge of the first `m` partial results of an `n`-way partition of
   * `s`: the chunk filters concatenated in chunk order.
   */
  function MergedChunks(s: seq<Student>, group: string, semester: int, n: nat, m: nat): (merged: seq<Student>)
    requires 1 <= n && m <= n
    ensures |merged| <= ChunkStart(|s|, n, m)
    ensures forall k :: 0 <= k < |merged| ==> IsScholarship(merged[k], group, semester)
  {
    if m == 0 then []
    else
      MergedChunks(s, group, semester, n, m - 1) + ChunkFilter(s, group, semester, n, m - 1)
  }

  /** Merging the first `m` chunk results filters the prefix those chunks cover. */
  lemma {:induction false} MergedChunksIsPrefixFilter(s: seq<Student>, group: string, semester: int, n: nat, m: nat)
    requires 1 <= n && m <= n
    ensures ChunkStart(|s|, n, m) <= |s|
    ensures MergedChunks(s, group, semester, n, m) == Filter(s[..ChunkStart(|s|, n, m)], group, semester)
  {
    if m == 0 {
      assert s[..0] == [];
    } else {
      MergedChunksIsPrefixFilter(s, group, semester, n, m - 1);
      ChunkWithinBounds(|s|, n, m - 1);
      FilterPrefixSplit(s, ChunkStart(|s|, n, m - 1), ChunkStart(|s|, n, m), group, semester);
    }
  }

  /**
   * For every thread count, the chunked filter merged in chunk order equals
   * the sequential filter of the whole input.
   */
  lemma ChunkedFilterEqualsSequential(s: seq<Student>, group: string, semester: int, n: nat)
    requires n >= 1
    ensures MergedChunks(s, group, semester, n, n) == Filter(s, group, semester)
  {
    MergedChunksIsPrefixFilter(s, group, semester, n, n);
    PartitionEndsAtSize(|s|, n);
    assert s[..|s|] == s;
  }

  /**
   * With more threads than students, every chunk from index `|s|` on is
   * empty and so is its partial result.
   */
  lemma TrailingPartialsEmpty(s: seq<Student>, group: string, semester: int, n: nat, i: nat)
    requires n > |s|
    requires |s| <= i < n
    ensures ChunkFilter(s, group, semester, n, i) == []
  {
    TrailingChunksEmpty(|s|, n, i);
  }

  /** The processChunk task: filter `students[start..end)` into a private vector. */
  method ProcessChunk(students: seq<Student>, group: string, semester: int, start: nat, end: nat)
    returns (partial: seq<Student>)
    requires start <= end <= |students|
    ensures partial == Filter(students[start..end], group, semester)
  {
    partial := [];
    var i := start;
    while i < end
      invariant start <= i <= end
      invariant partial == Filter(students[start..i], group, semester)
    {
      var ok := CheckScholarship(students[i], group, semester);
      assert students[start..i + 1][..i - start] == students[start..i];
      if ok {
        partial := partial + [students[i]];
      }
      i := i + 1;
    }
  }

  /**
   * processParallel: partition, one task per chunk, in-order merge. The
   * result is the merged chunk filters and, for every thread count, the
   * sequential result.
   */
  method ProcessParallel(students: seq<Student>, group: string, semester: int, threadCount: int)
    returns (result: seq<Student>)
    requires threadCount >= 1
    ensures result == MergedChunks(students, group, semester, threadCount, threadCount)
    ensures result == Filter(students, group, semester)
  {
    var size := |students|;
    var chunkSize := size / threadCount;
    var remainder := size % threadCount;

    // Launch: one partial result per chunk, in chunk order.
    var partials: seq<seq<Student>> := [];
    var startIndex: nat := 0;
    var i := 0;
    while i < threadCount
      invariant 0 <= i <= threadCount
      invariant |partials| == i
      invariant startIndex == ChunkStart(size, threadCount, i)
      invariant forall j :: 0 <= j < i ==> partials[j] == ChunkFilter(students, group, semester, threadCount, j)
    {
      var endIndex := startIndex + chunkSize + (if i < remainder then 1 else 0);
      assert endIndex == ChunkStart(size, threadCount, i + 1);
      ChunkWithinBounds(size, threadCount, i);
      var partial := ProcessChunk(students, group, semester, startIndex, endIndex);
      assert partial == ChunkFilter(students, group, semester, threadCount, i);
      partials := partials + [partial];
      startIndex := endIndex;
      i := i + 1;
    }
    PartitionEndsAtSize(size, threadCount);
    assert startIndex == size;

    // Gather: append each partial result in launch order.
    result := [];
    var j := 0;
    while j < threadCount
      invariant 0 <= j <= threadCount
      invariant result == MergedChunks(students, group, semester, threadCount, j)
    {
      result := result + partials[j];
      j := j + 1;
    }
    ChunkedFilterEqualsSequential(students, group, semester, threadCount);
  }
}
