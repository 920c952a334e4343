/** The partition step of `parallel_sort`: clamping the worker count,
    the ceiling chunk size, and slicing the vector into consecutive chunks
    (src/execution_cluster.py:31-33, repeated in src/iface_cluster.py:30-32). */
module Chunking {

  function Min(a: int, b: int): int {
    if a <= b then a else b
  }

  /** Python's `a // b`, which rounds toward negative infinity (Dafny's `/`
      is Euclidean and differs when b is negative). */
  function FloorDiv(a: int, b: int): (q: int)
    requires b != 0
    ensures b > 0 ==> b * q <= a < b * q + b
    ensures b < 0 ==> b * q + b < a <= b * q
  {
    if b > 0 then a / b else (-a) / (-b)
  }

  /** Two quotients that both satisfy the floor characterisation are equal. */
  lemma FloorDivUnique(a: int, b: int, q: int)
    requires b > 0 && b * q <= a < b * q + b
    ensures FloorDiv(a, b) == q
  {
    var p := FloorDiv(a, b);
    if p < q {
      MulMono(b, p + 1, q);
      assert false;
    } else if q < p {
      MulMono(b, q + 1, p);
      assert false;
    }
  }

  lemma MulMono(b: int, x: int, y: int)
    requires b > 0 && x <= y
    ensures b * x <= b * y
  {
    assert b * y - b * x == b * (y - x);
  }

  /** `min(num_threads, len(vector))`, line 31. */
  function EffectiveWorkers(n: nat, numThreads: int): (e: int)
    ensures e <= n && e <= numThreads
    ensures e == n || e == numThreads
  {
    Min(numThreads, n)
  }

  /** `(len(vector) + num_threads - 1) // num_threads`, line 32. */
  function ChunkSize(n: nat, e: int): int
    requires e != 0
  {
    FloorDiv(n + e - 1, e)
  }

  /** With a non-empty vector and at least one worker, the chunk size is
      the ceiling of n / e, and therefore at least 1. */
  lemma {:induction false} ChunkSizeIsCeiling(n: nat, e: int)
    requires n >= 1 && e >= 1
    ensures ChunkSize(n, e) >= 1
    ensures e * (ChunkSize(n, e) - 1) < n <= e * ChunkSize(n, e)
  {
    var k := ChunkSize(n, e);
    assert e * k <= n + e - 1 < e * k + e;
    assert e * (k - 1) == e * k - e;
    if k < 1 {
      MulMono(e, k, 0);
      assert false;
    }
  }

  /** The list comprehension `[v[i:i + k] for i in range(start, len(v), k)]`
      for a positive step k; a slice stops at the end of v. */
  function ChunksFrom(v: seq<int>, k: int, start: nat): seq<seq<int>>
    requires k >= 1
    decreases |v| - start
  {
    if start >= |v| then []
    else [v[start..Min(start + k, |v|)]] + ChunksFrom(v, k, start + k)
  }

  function Chunks(v: seq<int>, k: int): seq<seq<int>>
    requires k >= 1
  {
    ChunksFrom(v, k, 0)
  }

  /** The concatenation of a list of lists, in order. */
  function Flatten(cs: seq<seq<int>>): seq<int> {
    if cs == [] then [] else cs[0] + Flatten(cs[1..])
  }

  lemma {:induction false} FlattenAppend(a: seq<seq<int>>, b: seq<seq<int>>)
    ensures Flatten(a + b) == Flatten(a) + Flatten(b)
    decreases |a|
  {
    if a == [] {
      assert a + b == b;
    } else {
      assert (a + b)[0] == a[0];
      assert (a + b)[1..] == a[1..] + b;
      FlattenAppend(a[1..], b);
    }
  }

  lemma {:induction false} ChunksFromConcat(v: seq<int>, k: int, start: nat)
    requires k >= 1 && start <= |v|
    ensures Flatten(ChunksFrom(v, k, start)) == v[start..]
    decreases |v| - start
  {
    if start < |v| {
      var cs := ChunksFrom(v, k, start);
      assert cs[1..] == ChunksFrom(v, k, start + k);
      if start + k <= |v| {
        ChunksFromConcat(v, k, start + k);
        assert v[start..] == v[start..start + k] + v[start + k..];
      } else {
        assert ChunksFrom(v, k, start + k) == [];
      }
    }
  }

  /** Concatenating the chunks in order gives back exactly the vector:
      nothing overlaps, nothing is lost, the order is kept. */
  lemma ChunksConcat(v: seq<int>, k: int)
    requires k >= 1
    ensures Flatten(Chunks(v, k)) == v
  {
    ChunksFromConcat(v, k, 0);
  }

  lemma MulSucc(k: int, m: int)
    ensures k * (m + 1) == k * m + k
  {
  }

  lemma {:induction false} ChunksFromLengths(v: seq<int>, k: int, start: nat)
    requires k >= 1 && start < |v|
    ensures var cs := ChunksFrom(v, k, start);
      && |cs| >= 1
      && (forall j :: 0 <= j < |cs| - 1 ==> |cs[j]| == k)
      && 1 <= |cs[|cs| - 1]| <= k
    decreases |v| - start
  {
    var cs := ChunksFrom(v, k, start);
    var rest := ChunksFrom(v, k, start + k);
    assert cs == [cs[0]] + rest;
    if start + k < |v| {
      ChunksFromLengths(v, k, start + k);
      assert forall j :: 1 <= j < |cs| ==> cs[j] == rest[j - 1];
    } else {
      assert rest == [];
    }
  }

  lemma {:induction false} ChunksFromCount(v: seq<int>, k: int, start: nat)
    requires k >= 1 && start < |v|
    ensures var cs := ChunksFrom(v, k, start);
      && |cs| >= 1
      && k * (|cs| - 1) < |v| - start <= k * |cs|
      && |cs[|cs| - 1]| == |v| - start - k * (|cs| - 1)
    decreases |v| - start
  {
    var cs := ChunksFrom(v, k, start);
    var rest := ChunksFrom(v, k, start + k);
    assert cs == [cs[0]] + rest;
    if start + k < |v| {
      ChunksFromCount(v, k, start + k);
      var m' := |rest|;
      assert |cs| == m' + 1;
      MulSucc(k, m' - 1);
      MulSucc(k, m');
      assert cs[|cs| - 1] == rest[m' - 1];
    } else {
      assert rest == [];
      assert |cs| == 1;
    }
  }

  /** Every chunk but the last has exactly k elements; the last is non-empty
      and holds at most k; and the number of chunks m is the ceiling of
      n / k, both as a bracket and as the formula `(n + k - 1) // k`. */
  lemma ChunksShape(v: seq<int>, k: int)
    requires k >= 1 && |v| >= 1
    ensures var cs := Chunks(v, k);
      && |cs| >= 1
      && k * (|cs| - 1) < |v| <= k * |cs|
      && |cs| == FloorDiv(|v| + k - 1, k)
      && (forall j :: 0 <= j < |cs| - 1 ==> |cs[j]| == k)
      && |cs[|cs| - 1]| == |v| - k * (|cs| - 1)
      && 1 <= |cs[|cs| - 1]| <= k
  {
    var cs := Chunks(v, k);
    ChunksFromLengths(v, k, 0);
    ChunksFromCount(v, k, 0);
    MulSucc(k, |cs| - 1);
    FloorDivUnique(|v| + k - 1, k, |cs|);
  }

  /** The pipeline's chunk size for a non-empty vector and a positive worker
      count: ceiling of n / min(numThreads, n). */
  function PipelineChunkSize(n: nat, numThreads: int): (k: int)
    requires n >= 1 && numThreads >= 1
    ensures k >= 1
    ensures var e := EffectiveWorkers(n, numThreads); e * (k - 1) < n <= e * k
  {
    ChunkSizeIsCeiling(n, EffectiveWorkers(n, numThreads));
    ChunkSize(n, EffectiveWorkers(n, numThreads))
  }

  /** The chunk count never exceeds the clamped worker count (it may be
      smaller: 5 elements on 4 workers give chunk size 2 and 3 chunks). */
  lemma ChunkCountAtMostWorkers(v: seq<int>, numThreads: int)
    requires |v| >= 1 && numThreads >= 1
    ensures |Chunks(v, PipelineChunkSize(|v|, numThreads))| <= EffectiveWorkers(|v|, numThreads)
  {
    var e := EffectiveWorkers(|v|, numThreads);
    var k := PipelineChunkSize(|v|, numThreads);
    var m := |Chunks(v, k)|;
    ChunksShape(v, k);
    assert k * (m - 1) < e * k;
    if m > e {
      MulMono(k, e, m - 1);
      assert false;
    }
  }

  lemma {:induction false} UnitChunksFrom(v: seq<int>, start: nat)
    requires start <= |v|
    ensures |ChunksFrom(v, 1, start)| == |v| - start
    ensures forall j :: 0 <= j < |v| - start ==> ChunksFrom(v, 1, start)[j] == [v[start + j]]
    decreases |v| - start
  {
    if start < |v| {
      UnitChunksFrom(v, start + 1);
      var cs := ChunksFrom(v, 1, start);
      assert v[start..start + 1] == [v[start]];
      assert cs == [[v[start]]] + ChunksFrom(v, 1, start + 1);
    }
  }

  /** When there are at least as many workers as elements, the chunk size is
      1 and the chunks are the n singletons, in order. */
  lemma ClampToLength(v: seq<int>, numThreads: int)
    requires |v| >= 1 && numThreads >= |v|
    ensures EffectiveWorkers(|v|, numThreads) == |v|
    ensures PipelineChunkSize(|v|, numThreads) == 1
    ensures |Chunks(v, 1)| == |v|
    ensures forall j :: 0 <= j < |v| ==> Chunks(v, 1)[j] == [v[j]]
  {
    var n := |v|;
    FloorDivUnique(n + n - 1, n, 1);
    UnitChunksFrom(v, 0);
  }

  /** 5 elements on 4 workers: chunk size 2, only 3 chunks (sizes 2, 2, 1). */
  lemma FewerChunksThanWorkers(v: seq<int>)
    requires |v| == 5
    ensures PipelineChunkSize(5, 4) == 2
    ensures |Chunks(v, 2)| == 3 && |Chunks(v, 2)[2]| == 1
  {
    ChunksShape(v, 2);
  }

  /** 1000 elements on 4 workers: four chunks of 250. */
  lemma EvenSplit(v: seq<int>)
    requires |v| == 1000
    ensures PipelineChunkSize(1000, 4) == 250
    ensures |Chunks(v, 250)| == 4
    ensures forall j :: 0 <= j < 4 ==> |Chunks(v, 250)[j]| == 250
  {
    ChunksShape(v, 250);
  }
}
