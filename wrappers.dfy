/** Optional values, results with an error and duplicate-free sequences, shared by the modules of the model. */
module Wrappers {

  /** A value that may be absent: a missing column or a NaN cell, an absent key. */
  datatype Option<+T> = None | Some(value: T)

  /** The value of a call that either returns or raises. */
  datatype Result<+T, +E> = Ok(value: T) | Err(error: E)

  /** No element occurs twice. */
  predicate Distinct<T(==)>(s: seq<T>)
  {
    forall i, j :: 0 <= i < j < |s| ==> s[i] != s[j]
  }
}
