/** Option and Result, the two failure-carrying datatypes the rest of the model uses
    for Python's `None` and for raised exceptions. */
module Wrappers {

  datatype Option<+T> = None | Some(value: T) {
    /** `x or default` for an optional value that is truthy whenever present. */
    function GetOr(default: T): T {
      match this
      case Some(v) => v
      case None => default
    }
  }

  /** `d.get(key)` on a dictionary, and `os.getenv(key)` on the environment. */
  function MapGet<K, V>(m: map<K, V>, key: K): (r: Option<V>)
    ensures r.Some? <==> key in m
    ensures r.Some? ==> r.value == m[key]
  {
    if key in m then Some(m[key]) else None
  }

  /** `Success(v)` for a normal return, `Failure(e)` for a raised exception `e`. */
  datatype Result<+T, +E> = Success(value: T) | Failure(error: E)
}
