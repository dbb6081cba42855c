/** Failure-carrying values shared by the parser and the memory object. */
module Outcome {

  /** A value that may be absent (Python's `None`). */
  datatype Option<+T> = None | Some(value: T)

  /** The outcome of an operation that either returns a value or raises an error. */
  datatype Result<+T, +E> = Success(value: T) | Failure(error: E)

  /**
   `d.get(k)`: the value stored under `k`, or `None` where `d[k]` would
   raise `KeyError`.
   */
  function Get<K, V>(d: map<K, V>, k: K): (r: Option<V>)
    ensures r.Some? <==> k in d
    ensures r.Some? ==> r.value == d[k]
  {
    if k !in d then None else Some(d[k])
  }
}
