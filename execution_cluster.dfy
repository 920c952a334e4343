/** The input checks of the `/sort` route, src/execution_cluster.py:44-60:
    the JSON body's `method` must be "SEC" or "PAR", and `seed`, `size`,
    `n_repetitions` and `n_threads` must all be Python ints. */
module ExecutionCluster {

  /** A decoded JSON value as Python holds it. */
  datatype Json =
    | JNull
    | JBool(b: bool)
    | JInt(i: int)
    | JFloat(f: real)
    | JString(s: string)
    | JArray(items: seq<Json>)
    | JObject(fields: seq<(string, Json)>)

  /** `data.get(key)`: a missing key reads as None. */
  function Get(data: map<string, Json>, key: string): Json {
    if key in data then data[key] else JNull
  }

  /** Python truthiness, as `not method` tests it. */
  predicate Truthy(j: Json) {
    match j
    case JNull => false
    case JBool(b) => b
    case JInt(i) => i != 0
    case JFloat(f) => f != 0.0
    case JString(s) => s != ""
    case JArray(items) => items != []
    case JObject(fields) => fields != []
  }

  /** Lists and dicts cannot be looked up in a set. */
  predicate Hashable(j: Json) {
    !j.JArray? && !j.JObject?
  }

  /** `isinstance(x, int)`: a Python bool is an int too. */
  predicate IsPyInt(j: Json) {
    j.JInt? || j.JBool?
  }

  /** A Python int's value (True is 1, False is 0). */
  function IntValue(j: Json): int
    requires IsPyInt(j)
  {
    if j.JBool? then (if j.b then 1 else 0) else j.i
  }

  predicate KnownMethod(j: Json) {
    j == JString("SEC") || j == JString("PAR")
  }

  datatype Config = Config(strategy: string, seed: int, size: int, repetitions: int, threads: int)

  datatype Response =
    | Accepted(config: Config)
    | InvalidMethod            // 400 {"error": "Invalid method"}
    | InvalidParameters        // 400 {"error": "Invalid input parameters"}
    | UnhashableTypeError      // the route raises: 500

  predicate AllInts(data: map<string, Json>) {
    && IsPyInt(Get(data, "seed"))
    && IsPyInt(Get(data, "size"))
    && IsPyInt(Get(data, "n_repetitions"))
    && IsPyInt(Get(data, "n_threads"))
  }

  function ConfigOf(data: map<string, Json>): Config
    requires KnownMethod(Get(data, "method")) && AllInts(data)
  {
    Config(Get(data, "method").s, IntValue(Get(data, "seed")), IntValue(Get(data, "size")),
           IntValue(Get(data, "n_repetitions")), IntValue(Get(data, "n_threads")))
  }

  /** Lines 52-60 as written: `not method or method not in {"SEC", "PAR"}`.
      A non-empty list or object is truthy, so the set lookup runs on it and
      raises TypeError instead of answering "Invalid method". */
  function ValidateAsWritten(data: map<string, Json>): (r: Response)
    ensures r.UnhashableTypeError? <==> Truthy(Get(data, "method")) && !Hashable(Get(data, "method"))
    ensures !r.UnhashableTypeError? ==> r == Validate(data)
  {
    var requested := Get(data, "method");
    if !Truthy(requested) then InvalidMethod
    else if !Hashable(requested) then UnhashableTypeError
    else if !KnownMethod(requested) then InvalidMethod
    else if !AllInts(data) then InvalidParameters
    else Accepted(ConfigOf(data))
  }

  /** The request that shows the discrepancy: `{"method": ["SEC"]}`. */
  lemma ListMethodRaises()
    ensures ValidateAsWritten(map["method" := JArray([JString("SEC")])]) == UnhashableTypeError
    ensures Validate(map["method" := JArray([JString("SEC")])]) == InvalidMethod
  {
  }

  /** The evidently intended validation: every method other than "SEC" and
      "PAR" is answered with "Invalid method". */
  function Validate(data: map<string, Json>): (r: Response)
    ensures r == InvalidMethod <==> !KnownMethod(Get(data, "method"))
    ensures r == InvalidParameters <==> KnownMethod(Get(data, "method")) && !AllInts(data)
    ensures r.Accepted? <==> KnownMethod(Get(data, "method")) && AllInts(data)
    ensures r.Accepted? ==>
      && r.config.strategy in {"SEC", "PAR"}
      && r.config.strategy == Get(data, "method").s
      && r.config.seed == IntValue(Get(data, "seed"))
      && r.config.size == IntValue(Get(data, "size"))
      && r.config.repetitions == IntValue(Get(data, "n_repetitions"))
      && r.config.threads == IntValue(Get(data, "n_threads"))
  {
    var requested := Get(data, "method");
    if !KnownMethod(requested) then InvalidMethod
    else if !AllInts(data) then InvalidParameters
    else Accepted(ConfigOf(data))
  }
}
