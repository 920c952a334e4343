# Parallel sort benchmark: a Dafny model

This project models the sorting core of a small Flask benchmark service. The
service sorts random integer vectors in one of two ways and reports the mean
elapsed time. The two ways are the sequential baseline `sorted(vector)` and
the partitioned `parallel_sort`. `parallel_sort` clamps the worker count to the
vector length, computes a ceiling chunk size, and slices the vector into
consecutive chunks. It then sorts each chunk in a worker pool and merges the
sorted chunks with `heapq.merge`.

The pipeline appears twice, nearly word for word, in
`src/execution_cluster.py:22-38` and `src/iface_cluster.py:21-35`. It is
modelled once. The rows below cite whichever copy a property is stated for.

Modules, one per component:

- `Sorting`: Python's `sorted` (an insertion sort stands in for Timsort), and
  the fact that an ascending permutation of a list is unique.
- `Chunking`: the clamp, the chunk size with Python's floor division written
  out, and the stepped-range slicing comprehension.
- `KWayMerge`: `heapq.merge`. A pure right fold of two-way merges is the
  specification. `FrontierMerge` is the cursor-per-chunk loop that takes the
  smallest head each step, and it is proved equal to that fold.
- `Failures` and `SortEngine`: `sort_chunk`, `sequential_sort` and
  `parallel_sort`. Every exception the pipeline can raise is a `Result` value.
- `ExecutionCluster`: the JSON input checks of the `/sort` route.
- `IfaceCluster`: `generate_vectors` over an abstract random stream, the
  method dispatch, and the trial loop of `execute_sorting`.

`parallel_sort` returns a list exactly when the vector is non-empty and
`num_threads >= 1`. Otherwise it raises, and the model says which error, in
source order:

- The clamped count is 0: `ZeroDivisionError` at line 32.
- The clamped count is negative and the chunk size comes out 0: `range()`
  rejects the zero step at line 33.
- The clamped count is otherwise negative: `mp.Pool` rejects a process count
  below 1 at line 35.

Behaviour of the code worth knowing, which the model follows:

- `parallel_sort` makes `ceil(n / chunk_size)` chunks, which can be fewer
  than `min(num_threads, n)`. For example, 5 elements on 4 workers give 3
  chunks (`Chunking.FewerChunksThanWorkers`).
- `parallel_sort` of an empty vector does not return an empty list. With
  `num_threads >= 0` it divides by zero at line 32; a negative count reaches
  the `mp.Pool` error at line 35 instead (`SortEngine.ParallelSortFailures`).
- `generate_vectors` with size 0 returns `n_repetitions` empty vectors, since
  numpy draws nothing when no samples are asked for. A negative size fails.
  On those empty vectors "SEC" yields a mean, and every other name fails in
  `parallel_sort` (`IfaceCluster.EmptyVectorsBenchmark`).
- `execute_sorting` sends every method name other than "SEC" to the parallel
  path, not only "PAR".

## Model

| member | source | states |
|---|---|---|
| `Sorting.Sort` | src/iface_cluster.py:21-22 | `sorted(v)` is ascending, a permutation of v (same multiset), and has the same length |
| `Sorting.AscendingPermutationUnique` | src/iface_cluster.py:24-26 | two ascending lists with the same multiset are equal, so every correct sort gives the same result as `sorted` |
| `Sorting.SortCharacterised` | src/execution_cluster.py:26-27 | any ascending permutation of v equals `sorted(v)` |
| `Sorting.SortIdempotent` | src/execution_cluster.py:26-27 | sorting a sorted list returns it unchanged |
| `SortEngine.SortChunk` | src/execution_cluster.py:22-23 | each worker's result is an ascending permutation of its chunk |
| `SortEngine.SequentialSort` | src/execution_cluster.py:25-27 | the baseline returns an ascending permutation of the vector, of the same length |
| `Chunking.EffectiveWorkers` | src/execution_cluster.py:31 | the clamped count is at most both the requested count and the length, and equals one of them (it is their minimum) |
| `Chunking.FloorDiv` | src/execution_cluster.py:32 | `a // b` is the floor of a / b for either sign of b |
| `Chunking.ChunkSize` | src/execution_cluster.py:32 | no ensures: `(n + e - 1) // e` with Python's floor division; its properties are carried by `ChunkSizeIsCeiling` and `PipelineChunkSize` |
| `Chunking.ChunkSizeIsCeiling` | src/execution_cluster.py:31-32 | for n >= 1 and a clamped count e >= 1, `(n + e - 1) // e` is at least 1 and is the ceiling of n / e: `e*(k-1) < n <= e*k` |
| `Chunking.PipelineChunkSize` | src/iface_cluster.py:30-31 | the chunk size over `min(num_threads, n)` is at least 1 and is the ceiling of n over that count |
| `Chunking.ChunksFrom` | src/execution_cluster.py:33 | no ensures: the slices `v[i:i + k]` for the stepped range from a start index; its properties are carried by `ChunksConcat` and `ChunksShape` |
| `Chunking.Chunks` | src/execution_cluster.py:33 | no ensures: the comprehension over `range(0, len(vector), chunk_size)`; its properties are carried by `ChunksConcat`, `ChunksShape` and `ClampToLength` |
| `Chunking.ChunksConcat` | src/iface_cluster.py:32 | concatenating the chunks in order gives back exactly the vector |
| `Chunking.ChunksShape` | src/execution_cluster.py:32-33 | every chunk but the last has exactly k elements; the last has between 1 and k; the chunk count m satisfies `k*(m-1) < n <= k*m` and equals `(n + k - 1) // k` |
| `Chunking.ChunkCountAtMostWorkers` | src/execution_cluster.py:31-33 | the number of chunks never exceeds the clamped worker count |
| `Chunking.ClampToLength` | src/execution_cluster.py:31-33 | with `num_threads >= n`, the clamped count is n, the chunk size is 1, and the chunks are the n singletons in order |
| `Chunking.FewerChunksThanWorkers` | src/execution_cluster.py:31-33 | 5 elements on 4 workers: chunk size 2 and only 3 chunks, the last of length 1 |
| `Chunking.EvenSplit` | src/execution_cluster.py:31-33 | 1000 elements on 4 workers: chunk size 250 and four chunks of 250 |
| `SortEngine.SortChunks` | src/execution_cluster.py:35-36 | `pool.map(sort_chunk, chunks)` keeps the chunk count and puts at index i an ascending permutation of chunk i; so all chunks are ascending and the multiset of all elements is kept |
| `KWayMerge.Merge` | src/execution_cluster.py:37 | a two-way merge keeps the multiset union of its inputs |
| `KWayMerge.MergeAscending` | src/execution_cluster.py:37 | merging two ascending lists gives an ascending list |
| `KWayMerge.MergeAll` | src/execution_cluster.py:37 | the k-way merge keeps every element of every chunk, and is ascending when every chunk is |
| `KWayMerge.MergeAllIsSortedConcat` | src/iface_cluster.py:35 | on sorted chunks the merge equals `sorted` of the concatenated chunks |
| `KWayMerge.MinHead` | src/execution_cluster.py:37 | picks a non-exhausted chunk whose head is smallest, the first such chunk on ties |
| `KWayMerge.MergeStep` | src/execution_cluster.py:37 | emitting the smallest head and advancing its cursor keeps the output ascending and keeps output plus unconsumed elements equal to the input, and consumes one element |
| `KWayMerge.FrontierMerge` | src/execution_cluster.py:37 | the cursor-per-chunk merge of ascending chunks returns an ascending permutation of their concatenation, equal to `MergeAll` |
| `SortEngine.ParallelSort` | src/execution_cluster.py:29-38 | no ensures: `parallel_sort` with its three failures in source order; its behaviour is fixed by `ParallelSortDefinedIff`, `ParallelSortFailures` and `ParallelSortCorrect` |
| `SortEngine.ParallelSortDefinedIff` | src/execution_cluster.py:31-35 | `parallel_sort` returns a list iff `len(vector) >= 1` and `num_threads >= 1`; an empty vector (with `num_threads >= 0`) or `num_threads == 0` raises `ZeroDivisionError`; a negative count raises another error |
| `SortEngine.ParallelSortFailures` | src/execution_cluster.py:31-35 | specific cases of the three failures: an empty vector divides by zero, two elements on -1 workers give a zero `range` step, and one element or an empty vector on -1 workers give a negative process count |
| `SortEngine.ParallelSortCorrect` | src/execution_cluster.py:29-38 | on valid input, the result is ascending, a permutation of the vector, of the same length, and equal to `sequential_sort(vector)` |
| `SortEngine.ClampedParallelSort` | src/iface_cluster.py:28-35 | three elements on eight workers reproduce the sorted order |
| `ExecutionCluster.Validate` | src/execution_cluster.py:52-60 | "Invalid method" iff `method` is not "SEC" or "PAR"; otherwise "Invalid input parameters" iff one of seed, size, n_repetitions, n_threads is not a Python int; otherwise accepted, with those values |
| `ExecutionCluster.ValidateAsWritten` | src/execution_cluster.py:52-53 | the check as written raises TypeError exactly when `method` is a non-empty list or object; in every other case it agrees with `Validate` |
| `ExecutionCluster.ListMethodRaises` | src/execution_cluster.py:52-53 | the request `{"method": ["SEC"]}` raises instead of answering "Invalid method" |
| `IfaceCluster.RandInt` | src/iface_cluster.py:57 | each draw lies in [0, size) |
| `IfaceCluster.Draws` | src/iface_cluster.py:57 | one vector has `size` entries in [0, size), taken from consecutive stream positions; size 0 gives the empty vector |
| `IfaceCluster.GenerateVectors` | src/iface_cluster.py:55-57 | no repetitions give no vectors; otherwise a negative size fails; otherwise exactly `n_repetitions` vectors of length `size` (empty for size 0), entries in [0, size), vector j using stream positions `j*size ..` of one continuous stream |
| `IfaceCluster.RunTrial` | src/iface_cluster.py:62-65 | no ensures: "SEC" runs `sequential_sort`, every other name `parallel_sort`; its behaviour is fixed by `RunTrialOutcome` |
| `IfaceCluster.RunTrialOutcome` | src/iface_cluster.py:62-65 | "SEC" always succeeds; any other name succeeds iff the vector is non-empty and `n_threads >= 1`; every success is the sorted vector |
| `IfaceCluster.Trials` | src/iface_cluster.py:61-65 | one trial result per vector, in order: result j is the trial of vector j |
| `IfaceCluster.FirstFailurePrefix` | src/iface_cluster.py:61-65 | the first failure in a prefix of the trials is the first failure overall |
| `IfaceCluster.FirstFailureNone` | src/iface_cluster.py:61-65 | no failure is found iff every trial succeeds |
| `IfaceCluster.ExecutionOutcome` | src/iface_cluster.py:59-67 | no ensures: the value `execute_sorting` returns, given each trial's elapsed time; `ExecuteSorting` is proved equal to it and `ExecutionOutcomeOk` characterises when it is a mean |
| `IfaceCluster.ExecuteSorting` | src/iface_cluster.py:59-67 | the loop returns the first trial failure; otherwise it returns `ZeroDivisionError` for no vectors, and otherwise the mean of the elapsed times |
| `IfaceCluster.TrialsAllOk` | src/iface_cluster.py:61-65 | for a non-empty list, every trial succeeds iff the method is "SEC", or `n_threads >= 1` and every vector is non-empty |
| `IfaceCluster.ExecutionOutcomeOk` | src/iface_cluster.py:59-67 | `execute_sorting` returns a mean iff there is at least one vector and the trials can all succeed; no vectors raise `ZeroDivisionError` |
| `IfaceCluster.BenchmarkSucceeds` | src/iface_cluster.py:40-42 | generating then executing, with positive size, repetitions and threads, yields a mean for every method name |
| `IfaceCluster.EmptyVectorsBenchmark` | src/iface_cluster.py:55-67 | size 0 with at least one repetition gives that many empty vectors; "SEC" then yields a mean, and any other name fails with `parallel_sort([])`'s error, `ZeroDivisionError` when `n_threads >= 0` |

## Findings

| source | as written | input that shows it | evidently intended | confidence | as-written member | corrected member |
|---|---|---|---|---|---|---|
| src/execution_cluster.py:52-53 | `not method or method not in {"SEC", "PAR"}` runs a set lookup on any truthy `method`, and a list or dict is unhashable | JSON body `{"method": ["SEC"]}` raises TypeError, an HTTP 500 | every method other than "SEC" or "PAR" is answered 400 "Invalid method" | not executed; high | `ExecutionCluster.ValidateAsWritten` (with `ExecutionCluster.ListMethodRaises`) | `ExecutionCluster.Validate` |

## Left out

- Flask transport: the routes, `request.json` and `request.form`, `jsonify`, `render_template`, `app.run`. This is I/O. The JSON body is a `map<string, Json>`. A body that is not a JSON object is not modelled.
- `parse_request`: a thin `int()` conversion of form strings.
- The worker pool's process lifecycle and its `with` teardown. This is concurrency. `pool.map` is a sequential map; the chunks are independent copies, so finishing order is not observable.
- The timing decorator `measure_exec_time`, `time()` and `print`. Each trial's elapsed time is a `real` parameter of `ExecuteSorting`.
- Float arithmetic: the mean is an exact real. `round(..., 8)` and float accumulation are not modelled.
- The repetition loop of `sort_vector` (src/execution_cluster.py:62-73): float timing, like `execute_sorting`'s; its dispatch, `if method == "SEC"` then `if method == "PAR"`, is not modelled separately.
- `np.random.seed(seed)` and numpy's generator: a foreign call. The seeded stream is a parameter `stream: nat -> int`. Each draw is reduced modulo `size`. The distribution, and seed range checks, are not modelled. Determinism holds because the model is a function of the stream.
- Within one chunk, `sorted` is Timsort. The model uses insertion sort; `Sorting.AscendingPermutationUnique` shows the results are equal.
- `heapq.merge` keeps the frontier in a heap. `KWayMerge.MinHead` scans the heads linearly. The output is the same; the O(n log k) cost is not modelled.
- KWayMerge.FrontierMerge: requires every chunk to be ascending. `heapq.merge` also accepts unsorted iterables, but the pipeline only passes sorted chunks.
- `ExecutionCluster.Validate` treats a JSON `true`/`false` as an int (value 1/0), as `isinstance(True, int)` does. Requests that are accepted but break later are not validation errors in the source, and are not modelled here: a negative `size` fails in numpy, `size == 0` with "PAR" divides by zero in `parallel_sort` when `n_threads >= 0` (a negative count reaches the `mp.Pool` error instead), and `n_repetitions == 0` divides by zero at src/execution_cluster.py:72.
