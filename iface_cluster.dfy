/** The form-driven front end of src/iface_cluster.py: `generate_vectors`
    (lines 55-57) and `execute_sorting` (lines 59-67), over the same sorting
    pipeline as src/execution_cluster.py. */
module IfaceCluster {
  import opened Failures
  import opened Sorting
  import opened SortEngine

  /** `np.random.randint(0, high)` as the draw at position pos of the seeded
      random stream, reduced into [0, high). The stream itself (numpy's
      Mersenne Twister behind `np.random.seed(seed)`) is a parameter. */
  function RandInt(stream: nat -> int, pos: nat, high: int): (r: int)
    requires high >= 1
    ensures 0 <= r < high
  {
    stream(pos) % high
  }

  /** `np.random.randint(0, size, size=size)` starting at stream position
      start. With size 0 no sample is drawn and the vector is empty. */
  function Draws(stream: nat -> int, start: nat, size: int): (d: seq<int>)
    requires size >= 0
    ensures |d| == size
    ensures forall i :: 0 <= i < size ==> 0 <= d[i] < size && d[i] == RandInt(stream, start + i, size)
  {
    var d := seq(size, i requires 0 <= i < size => RandInt(stream, start + i, size));
    assert forall i :: 0 <= i < size ==> d[i] == RandInt(stream, start + i, size);
    d
  }

  /** `generate_vectors(seed, size, n_repetitions)`: `n_repetitions` vectors of
      `size` draws each, taken one after another from a single stream (one
      seeding, then vector j uses draws j * size .. j * size + size - 1).
      numpy returns an empty array when no samples are asked for, even from
      the empty range [0, 0), but refuses a negative size. */
  function GenerateVectors(stream: nat -> int, size: int, repetitions: int): (r: Result<seq<seq<int>>>)
    ensures repetitions <= 0 ==> r == Ok([])
    ensures repetitions >= 1 && size < 0 ==> r == Err(EmptyRandomRange)
    ensures repetitions >= 1 && size >= 0 ==>
      && r.Ok?
      && |r.value| == repetitions
      && forall j :: 0 <= j < repetitions ==> |r.value[j]| == size
    ensures r.Ok? ==> forall j, i :: 0 <= j < |r.value| && 0 <= i < |r.value[j]| ==>
      0 <= r.value[j][i] < size && r.value[j][i] == RandInt(stream, j * size + i, size)
  {
    if repetitions <= 0 then Ok([])
    else if size < 0 then Err(EmptyRandomRange)
    else
      var vs := seq(repetitions, j requires 0 <= j < repetitions => Draws(stream, j * size, size));
      assert forall j :: 0 <= j < repetitions ==> vs[j] == Draws(stream, j * size, size);
      Ok(vs)
  }

  /** The loop body of `execute_sorting`: "SEC" selects `sequential_sort`;
      every other string, "PAR" or not, selects `parallel_sort`. */
  function RunTrial(v: seq<int>, methodName: string, numThreads: int): Result<seq<int>> {
    if methodName == "SEC" then Ok(SequentialSort(v)) else ParallelSort(v, numThreads)
  }

  /** A trial fails only on the parallel path with an empty vector or no
      workers; whenever it succeeds, both strategies give the sorted vector. */
  lemma RunTrialOutcome(v: seq<int>, methodName: string, numThreads: int)
    ensures RunTrial(v, methodName, numThreads).Ok? <==> methodName == "SEC" || (|v| >= 1 && numThreads >= 1)
    ensures RunTrial(v, methodName, numThreads).Ok? ==> RunTrial(v, methodName, numThreads).value == Sort(v)
  {
    ParallelSortDefinedIff(v, numThreads);
    if methodName != "SEC" && |v| >= 1 && numThreads >= 1 {
      ParallelSortCorrect(v, numThreads);
    }
  }

  /** Each vector's trial, in order, as `execute_sorting` runs them. */
  function Trials(vs: seq<seq<int>>, methodName: string, numThreads: int): (rs: seq<Result<seq<int>>>)
    ensures |rs| == |vs|
    ensures forall j :: 0 <= j < |vs| ==> rs[j] == RunTrial(vs[j], methodName, numThreads)
  {
    seq(|vs|, j requires 0 <= j < |vs| => RunTrial(vs[j], methodName, numThreads))
  }

  datatype Option<T> = None | Some(value: T)

  /** The first failure in a list of trial results. */
  function FirstFailure<T>(rs: seq<Result<T>>): Option<Failure>
    decreases |rs|
  {
    if rs == [] then None
    else
      match FirstFailure(rs[..|rs| - 1])
      case Some(f) => Some(f)
      case None => if rs[|rs| - 1].Err? then Some(rs[|rs| - 1].failure) else None
  }

  /** Extending a failure-free prefix by one result. */
  lemma FirstFailureExtend<T>(rs: seq<Result<T>>, k: nat)
    requires k < |rs| && FirstFailure(rs[..k]).None?
    ensures FirstFailure(rs[..k + 1]) == if rs[k].Err? then Some(rs[k].failure) else None
  {
    assert rs[..k + 1][..k] == rs[..k];
  }

  /** A failure in a prefix is the first failure of the whole list. */
  lemma {:induction false} FirstFailurePrefix<T>(rs: seq<Result<T>>, k: nat)
    requires k <= |rs|
    requires FirstFailure(rs[..k]).Some?
    ensures FirstFailure(rs) == FirstFailure(rs[..k])
    decreases |rs| - k
  {
    if k < |rs| {
      assert rs[..k + 1][..k] == rs[..k];
      FirstFailurePrefix(rs, k + 1);
    } else {
      assert rs[..k] == rs;
    }
  }

  /** No failure is found exactly when every result is a success. */
  lemma {:induction false} FirstFailureNone<T>(rs: seq<Result<T>>)
    ensures FirstFailure(rs).None? <==> forall j :: 0 <= j < |rs| ==> rs[j].Ok?
    decreases |rs|
  {
    if rs != [] {
      var init := rs[..|rs| - 1];
      FirstFailureNone(init);
      assert forall j :: 0 <= j < |init| ==> init[j] == rs[j];
    }
  }

  function Total(xs: seq<real>): real
    decreases |xs|
  {
    if xs == [] then 0.0 else Total(xs[..|xs| - 1]) + xs[|xs| - 1]
  }

  lemma TotalExtend(xs: seq<real>, k: nat)
    requires k < |xs|
    ensures Total(xs[..k + 1]) == Total(xs[..k]) + xs[k]
  {
    assert xs[..k + 1][..k] == xs[..k];
  }

  /** What `execute_sorting` returns, given the elapsed time each trial's
      clock reads: the first exception a trial raises; otherwise the mean of
      the elapsed times, or ZeroDivisionError for an empty list of vectors. */
  function ExecutionOutcome(vs: seq<seq<int>>, methodName: string, numThreads: int, elapsed: seq<real>): Result<real>
    requires |elapsed| == |vs|
  {
    match FirstFailure(Trials(vs, methodName, numThreads))
    case Some(f) => Err(f)
    case None =>
      if |vs| == 0 then Err(ZeroDivisionError) else Ok(Total(elapsed) / (|vs| as real))
  }

  /** `execute_sorting(vectors, method, n_threads)`: one trial per vector in
      order, accumulating elapsed time; an exception ends the loop. */
  method ExecuteSorting(vs: seq<seq<int>>, methodName: string, numThreads: int, elapsed: seq<real>)
    returns (r: Result<real>)
    requires |elapsed| == |vs|
    ensures r == ExecutionOutcome(vs, methodName, numThreads, elapsed)
  {
    ghost var rs := Trials(vs, methodName, numThreads);
    var total := 0.0;
    for k := 0 to |vs|
      invariant FirstFailure(rs[..k]) == None
      invariant total == Total(elapsed[..k])
    {
      var trial := RunTrial(vs[k], methodName, numThreads);
      assert rs[k] == trial;
      FirstFailureExtend(rs, k);
      TotalExtend(elapsed, k);
      if trial.Err? {
        FirstFailurePrefix(rs, k + 1);
        return Err(trial.failure);
      }
      total := total + elapsed[k];
    }
    assert rs[..|vs|] == rs;
    assert elapsed[..|vs|] == elapsed;
    if |vs| == 0 {
      return Err(ZeroDivisionError);
    }
    r := Ok(total / (|vs| as real));
  }

  /** `execute_sorting` returns a mean exactly when there is at least one
      vector and either "SEC" is asked for or every vector is non-empty and
      at least one worker is asked for. */
  lemma ExecutionOutcomeOk(vs: seq<seq<int>>, methodName: string, numThreads: int, elapsed: seq<real>)
    requires |elapsed| == |vs|
    ensures ExecutionOutcome(vs, methodName, numThreads, elapsed).Ok? <==>
      |vs| >= 1 && (methodName == "SEC" || (numThreads >= 1 && forall j :: 0 <= j < |vs| ==> |vs[j]| >= 1))
    ensures |vs| == 0 ==> ExecutionOutcome(vs, methodName, numThreads, elapsed) == Err(ZeroDivisionError)
  {
    var rs := Trials(vs, methodName, numThreads);
    FirstFailureNone(rs);
    if |vs| >= 1 {
      TrialsAllOk(vs, methodName, numThreads);
    }
  }

  lemma TrialsAllOk(vs: seq<seq<int>>, methodName: string, numThreads: int)
    requires |vs| >= 1
    ensures (forall j :: 0 <= j < |vs| ==> Trials(vs, methodName, numThreads)[j].Ok?) <==>
      (methodName == "SEC" || (numThreads >= 1 && forall j :: 0 <= j < |vs| ==> |vs[j]| >= 1))
  {
    var rs := Trials(vs, methodName, numThreads);
    forall j | 0 <= j < |vs|
      ensures rs[j].Ok? <==> methodName == "SEC" || (|vs[j]| >= 1 && numThreads >= 1)
    {
      RunTrialOutcome(vs[j], methodName, numThreads);
    }
    if methodName != "SEC" && (forall j :: 0 <= j < |vs| ==> rs[j].Ok?) {
      assert rs[0].Ok?;
    }
  }

  /** The `index` route end to end: with at least one repetition, a positive
      size and a positive worker count, every method name yields a mean. */
  lemma BenchmarkSucceeds(stream: nat -> int, size: int, repetitions: int, methodName: string,
                          numThreads: int, elapsed: seq<real>)
    requires size >= 1 && repetitions >= 1 && numThreads >= 1 && |elapsed| == repetitions
    ensures GenerateVectors(stream, size, repetitions).Ok?
    ensures ExecutionOutcome(GenerateVectors(stream, size, repetitions).value, methodName, numThreads, elapsed).Ok?
  {
    var vs := GenerateVectors(stream, size, repetitions).value;
    ExecutionOutcomeOk(vs, methodName, numThreads, elapsed);
  }

  /** Size 0 with at least one repetition: every vector is empty, so "SEC"
      yields a mean, while every other name fails on the first vector with
      the error `parallel_sort([])` raises (ZeroDivisionError unless the
      worker count is negative). */
  lemma EmptyVectorsBenchmark(stream: nat -> int, repetitions: int, methodName: string,
                              numThreads: int, elapsed: seq<real>)
    requires repetitions >= 1 && |elapsed| == repetitions
    ensures GenerateVectors(stream, 0, repetitions).Ok?
    ensures forall j :: 0 <= j < repetitions ==> GenerateVectors(stream, 0, repetitions).value[j] == []
    ensures methodName == "SEC" ==>
      ExecutionOutcome(GenerateVectors(stream, 0, repetitions).value, methodName, numThreads, elapsed).Ok?
    ensures methodName != "SEC" ==>
      && ParallelSort([], numThreads).Err?
      && ExecutionOutcome(GenerateVectors(stream, 0, repetitions).value, methodName, numThreads, elapsed)
           == Err(ParallelSort([], numThreads).failure)
    ensures methodName != "SEC" && numThreads >= 0 ==>
      ExecutionOutcome(GenerateVectors(stream, 0, repetitions).value, methodName, numThreads, elapsed)
        == Err(ZeroDivisionError)
  {
    var vs := GenerateVectors(stream, 0, repetitions).value;
    assert forall j :: 0 <= j < |vs| ==> vs[j] == [];
    ExecutionOutcomeOk(vs, methodName, numThreads, elapsed);
    ParallelSortDefinedIff([], numThreads);
    if methodName != "SEC" {
      var rs := Trials(vs, methodName, numThreads);
      assert rs[0] == ParallelSort([], numThreads);
      assert rs[..1][..0] == [];
      FirstFailurePrefix(rs, 1);
    }
  }
}
