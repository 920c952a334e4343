/** The exceptions the core can raise, as values. */
module Failures {
  datatype Failure =
    | ZeroDivisionError    // an integer division or a mean with divisor 0
    | ZeroRangeStep        // `range(0, n, 0)`: "range() arg 3 must not be zero"
    | InvalidProcessCount  // `mp.Pool(processes=p)` with p < 1
    | EmptyRandomRange     // `np.random.randint(0, size, size=size)` with size < 0

  datatype Result<T> = Ok(value: T) | Err(failure: Failure)
}

/** `sort_chunk`, `sequential_sort` and `parallel_sort`: the same three
    functions appear in src/execution_cluster.py:22-38 and
    src/iface_cluster.py:21-35. The timing decorator is left out, so each
    returns the sorted list rather than a (list, seconds) pair. */
module SortEngine {
  import opened Failures
  import opened Sorting
  import opened Chunking
  import opened KWayMerge

  /** `sort_chunk(vector)`: the task each pool worker runs. */
  function SortChunk(v: seq<int>): (r: seq<int>)
    ensures Ascending(r) && multiset(r) == multiset(v)
  {
    Sort(v)
  }

  /** `sequential_sort(vector)`: the baseline. */
  function SequentialSort(v: seq<int>): (r: seq<int>)
    ensures Ascending(r) && multiset(r) == multiset(v) && |r| == |v|
  {
    Sort(v)
  }

  /** `pool.map(sort_chunk, chunks)`, taken as a sequential map: the chunks
      are independent copies, so the order the workers finish in is not
      observable in the result. */
  function SortChunks(chunks: seq<seq<int>>): (r: seq<seq<int>>)
    ensures |r| == |chunks|
    ensures forall i :: 0 <= i < |chunks| ==> Ascending(r[i]) && multiset(r[i]) == multiset(chunks[i])
    ensures AllAscending(r)
    ensures multiset(Flatten(r)) == multiset(Flatten(chunks))
  {
    if chunks == [] then []
    else
      var t := SortChunks(chunks[1..]);
      assert ([SortChunk(chunks[0])] + t)[1..] == t;
      [SortChunk(chunks[0])] + t
  }

  /** `parallel_sort(vector, num_threads)`: clamp, chunk size, slicing,
      per-chunk sort, k-way merge. The failures come in the order the source
      reaches them: line 32 divides by the clamped count; line 33 rejects a
      zero step; line 35 rejects a process count below 1 (by then the chunk
      list has been built and is discarded). */
  function ParallelSort(v: seq<int>, numThreads: int): Result<seq<int>> {
    var e := EffectiveWorkers(|v|, numThreads);
    if e == 0 then Err(ZeroDivisionError)
    else
      var k := ChunkSize(|v|, e);
      if k == 0 then Err(ZeroRangeStep)
      else if e < 1 then Err(InvalidProcessCount)
      else
        ChunkSizeIsCeiling(|v|, e);
        Ok(MergeAll(SortChunks(Chunks(v, k))))
  }

  /** `parallel_sort` returns a list exactly when the vector is non-empty and
      at least one worker is asked for; otherwise it raises. */
  lemma ParallelSortDefinedIff(v: seq<int>, numThreads: int)
    ensures ParallelSort(v, numThreads).Ok? <==> |v| >= 1 && numThreads >= 1
    ensures |v| == 0 && numThreads >= 0 ==> ParallelSort(v, numThreads) == Err(ZeroDivisionError)
    ensures numThreads == 0 ==> ParallelSort(v, numThreads) == Err(ZeroDivisionError)
    ensures numThreads < 0 ==> ParallelSort(v, numThreads).Err? && ParallelSort(v, numThreads) != Err(ZeroDivisionError)
  {
    var e := EffectiveWorkers(|v|, numThreads);
    if |v| >= 1 && numThreads >= 1 {
      ChunkSizeIsCeiling(|v|, e);
    }
  }

  /** End-to-end correctness: on a non-empty vector with a positive worker
      count, the parallel result is ascending, a permutation of the input,
      and equal to the sequential baseline. */
  lemma ParallelSortCorrect(v: seq<int>, numThreads: int)
    requires |v| >= 1 && numThreads >= 1
    ensures ParallelSort(v, numThreads).Ok?
    ensures Ascending(ParallelSort(v, numThreads).value)
    ensures multiset(ParallelSort(v, numThreads).value) == multiset(v)
    ensures |ParallelSort(v, numThreads).value| == |v|
    ensures ParallelSort(v, numThreads) == Ok(SequentialSort(v))
  {
    var e := EffectiveWorkers(|v|, numThreads);
    ChunkSizeIsCeiling(|v|, e);
    var k := ChunkSize(|v|, e);
    var chunks := Chunks(v, k);
    ChunksConcat(v, k);
    var sorted := SortChunks(chunks);
    var r := MergeAll(sorted);
    assert multiset(r) == multiset(v);
    SortCharacterised(v, r);
    assert |r| == |multiset(r)|;
  }

  /** Three elements on eight workers: the parallel path reproduces the
      sorted order. */
  lemma ClampedParallelSort(a: int, b: int, c: int)
    ensures ParallelSort([a, b, c], 8) == Ok(Sort([a, b, c]))
  {
    ParallelSortCorrect([a, b, c], 8);
  }

  /** The three ways `parallel_sort` raises: an empty vector divides by zero
      at line 32; with num_threads = -1 two elements give chunk size
      `0 // -1 == 0` and `range` rejects the zero step, while one element
      gives chunk size 1 and the pool then rejects -1 processes. An empty
      vector on -1 workers gives chunk size `-2 // -1 == 2`, an empty chunk
      list, and the same pool error. */
  lemma ParallelSortFailures(x: int, y: int)
    ensures ParallelSort([], 3) == Err(ZeroDivisionError)
    ensures ParallelSort([x, y], -1) == Err(ZeroRangeStep)
    ensures ParallelSort([x], -1) == Err(InvalidProcessCount)
    ensures ParallelSort([], -1) == Err(InvalidProcessCount)
  {
    assert FloorDiv(0, -1) == 0;
    assert FloorDiv(-1, -1) == 1;
    assert FloorDiv(-2, -1) == 2;
  }
}
