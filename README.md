# Scholarship filter: sequential and chunked-parallel

This project models the scholarship filter in `Main.cpp`. A student record has a
name, a group and a list of session results. Each result holds a semester, a
subject and a grade. A student qualifies for a scholarship in group `G` and
semester `S` when two things hold:

- the student belongs to `G`;
- no session of semester `S` has a grade below 4.

Sessions of other semesters are ignored. A student with no sessions in `S`
therefore qualifies.

Two filters keep the qualifying students in input order:

- `processSequential` scans the whole vector.
- `processParallel` splits `[0, size)` into `threadCount` contiguous chunks. Each
  chunk has `size / threadCount` elements, and the first `size % threadCount`
  chunks get one more. Each chunk is filtered into a private vector, and the
  partial vectors are then appended in chunk order.

The main theorem: for every `threadCount >= 1`, the parallel result equals the
sequential one.

Files and modules:

- `students.dfy` (`Students`): the records, the predicate `IsScholarship`, and
  `CheckScholarship`. `CheckScholarship` is the source's early-return scan,
  written as a method and proved equal to the predicate.
- `filter.dfy` (`Filtering`): `Filter`, the order-preserving filter used as the
  specification, with the lemmas about it. Also `ProcessSequential`, the loop
  that pushes results, proved equal to `Filter`.
- `partition.dfy` (`Partition`): the chunk arithmetic. `ChunkStart` is the value
  `startIndex` holds at each iteration of the partition loop. It comes with its
  closed form and with lemmas on coverage, disjointness and balance.
- `parallel.dfy` (`ParallelFilter`):
  - `ProcessChunk`, the per-chunk task;
  - `ProcessParallel`, the partition loop followed by the in-order gather;
  - `MergedChunks`, the pure reference for "filter each chunk, then concatenate
    in chunk order";
  - the lemma that `MergedChunks` equals `Filter`.
- `dataset.dfy` (`SmallDataset`): the fixed five-student dataset of `test1` and
  the result both filters give on it.

Each `std::async` task is modelled as computing its chunk's result directly. The
tasks run in launch order, which is also the order in which `processParallel` reads the
futures. Every task reads a disjoint slice and writes only its own vector, so
this sequential order gives the same results as any thread schedule.

Integer widths: the source's `size_t` indices and chunk arithmetic become `nat`.
Every value involved lies between 0 and `students.size()`, so nothing can wrap
around. `threadCount` is an `int` and must be at least 1. The comparison
`i < remainder` between an `int` and a `size_t` is safe because `i` is never
negative.

## Model

| member | source | states |
|---|---|---|
| Students.CheckScholarship | Main.cpp:22-32 | The scan returns true exactly when the student is in the requested group and no session of the requested semester has a grade below 4. When it returns false for a student of that group, a failing session of that semester exists. |
| Students.WrongGroupNeverQualifies | Main.cpp:23 | A student of another group never qualifies, whatever the grades. |
| Students.QualifiesUnlessFailingSession | Main.cpp:25-31 | Within the requested group, a student fails exactly when some session of the requested semester has a grade below 4. |
| Students.NoSessionsQualifies | Main.cpp:25-31 | A student of the group with no session in the requested semester qualifies (vacuous case). |
| Students.IsScholarship | Main.cpp:22-32 | The eligibility rule as a predicate: the student is in the requested group and no session of the requested semester has a grade below 4. `CheckScholarship` is proved to decide it, and the lemmas below characterise it. |
| Students.OtherSemesterIgnored | Main.cpp:26 | Appending a session of a different semester at the end never changes eligibility. |
| Filtering.Filter | Main.cpp:34-42 | The filtered sequence is no longer than the input, and every student in it qualifies. |
| Filtering.QualifyingIndicesSpec | Main.cpp:36-40 | The positions the loop pushes from are within the input and strictly increasing. A position is among them exactly when the student there qualifies. |
| Filtering.FilterAtQualifyingIndices | Main.cpp:36-40 | The result has one entry per qualifying position, and entry `j` is the input student at the `j`-th qualifying position. |
| Filtering.FilterMembership | Main.cpp:36-40 | A student is in the result exactly when it is in the input and qualifies. |
| Filtering.FilterAppend | Main.cpp:36-40 | Filtering a concatenation gives the concatenation of the filtered parts. |
| Filtering.FilterPrefixSplit | Main.cpp:73-76 | Filtering the prefix up to `j` gives the filtered prefix up to `i` followed by the filtered slice `[i, j)`. |
| Filtering.ProcessSequential | Main.cpp:34-42 | The pushing loop returns exactly the order-preserving filter of the input. |
| Partition.ChunkLen | Main.cpp:65 | A chunk has the base size or the base size plus one. It has the extra element exactly when its index is below `size % threadCount`. |
| Partition.ChunkStart | Main.cpp:62-69 | The value of `startIndex` at iteration `i`: 0 at the start, then the previous start plus the previous chunk length. `ChunkStartClosedForm` gives its exact value, and `PartitionEndsAtSize` gives its value at `n`. |
| Partition.ChunkStartClosedForm | Main.cpp:62-70 | At iteration `i`, `startIndex` equals `i * (size / n) + min(i, size % n)`. |
| Partition.PartitionEndsAtSize | Main.cpp:62-70 | The first range starts at 0. After the last iteration, `startIndex == students.size()`. |
| Partition.ChunkStartMonotone | Main.cpp:64-69 | Range starts never decrease, so the ranges come in order. |
| Partition.ChunkWithinBounds | Main.cpp:64-69 | Every range has `start <= end <= size`, so no range is negative or past the end. |
| Partition.ChunkLensBalanced | Main.cpp:48-65 | Any two chunk lengths differ by at most one. |
| Partition.TrailingChunksEmpty | Main.cpp:48-65 | With more threads than students, every chunk from index `size` on is empty and sits at `size`. |
| Partition.ChunksDisjoint | Main.cpp:62-70 | An index lying in two ranges means the two ranges are the same one. |
| Partition.PartitionCovers | Main.cpp:62-70 | Every index of `[0, size)` lies in one of the `threadCount` ranges. |
| ParallelFilter.ChunkFilter | Main.cpp:52-60 | The partial result of chunk `i`: the filter of that chunk's slice. It holds at most the chunk's length of students, all of them qualifying. |
| ParallelFilter.TrailingPartialsEmpty | Main.cpp:48-59 | With more threads than students, every chunk from index `size` on yields an empty partial result. |
| ParallelFilter.ProcessChunk | Main.cpp:52-60 | The chunk task returns the sequential filter of `students[start..end)`. |
| ParallelFilter.MergedChunks | Main.cpp:72-76 | The first `m` partial results appended in chunk order. The result is no longer than the prefix those chunks cover and holds only qualifying students. `MergedChunksIsPrefixFilter` gives its exact value. |
| ParallelFilter.MergedChunksIsPrefixFilter | Main.cpp:72-76 | Appending the first `m` partial results in chunk order gives the filter of the prefix those chunks cover. |
| ParallelFilter.ChunkedFilterEqualsSequential | Main.cpp:45-79 | For every thread count at least 1, the chunked filter merged in chunk order equals the sequential filter. |
| ParallelFilter.ProcessParallel | Main.cpp:45-79 | The partition, launch and gather loops return the in-order merge of the chunk filters. That merge equals the sequential filter of the whole input. |
| SmallDataset.SmallDatasetResult | Main.cpp:118-124 | On the fixed dataset, group "A" and semester 1 select students 0, 1 and 3 (Иванов, Петрова, Кузнецова). |
| SmallDataset.RunSmallDataset | Main.cpp:127-137 | On the fixed dataset, with any thread count, the sequential and parallel results agree and equal those three students. |

## Left out

- Threads and futures (`std::async`, `future::get`): each task is modelled as computing its chunk's result, in launch order. Scheduling cannot change the result, because the tasks share no mutable state.
- `threadCount <= 0`: `ProcessParallel` requires `threadCount >= 1`. When `threadCount` is 0, the source divides by zero at Main.cpp:48. When it is negative, the conversion to `size_t` makes the divisor huge, the partition loop runs no iteration, and `processParallel` quietly returns an empty vector. It then differs from `processSequential` whenever someone qualifies. Neither case is modelled.
- Failure propagation from a task: the eligibility test is total and cannot fail. Allocation failures inside `push_back` or `insert` are not modelled.
- `generateRandomStudents`: it draws from `random_device` and `mt19937`.
- `printStudent`, the console output and wall-clock timing of `test1` and `test2`, and `main`. `test1` itself is modelled only as `RunSmallDataset`.
- `barrier.cpp`: five threads meet at a `std::barrier`. Each then generates 100 random symbols and prints them, followed by its elapsed time. Both writes are made under a `lock_guard` on a shared mutex. It consists of threads, randomness, clocks and console output, and `support.hpp`, which supplies `generateRandom`, is not part of this model.
- `semaphore.cpp`: five threads pass a `std::counting_semaphore<2>`, so at most two are inside it at a time. Each prints 100 random values and its elapsed time, without a lock, and then releases the semaphore. It is left out for the same reasons as `barrier.cpp`.
- No average-based eligibility rule exists in `Main.cpp`; none is modelled.
- Student names and subjects are kept as plain strings compared by equality. No text encoding or locale is modelled.
