/** Failure-carrying values shared by the whole model: an optional value, the
    outcome of an operation that the Python code may abort with an exception,
    and the "each element at most once" property of lists. */
module Wrappers {

  datatype Option<+T> = None | Some(value: T)

  datatype Result<+T, +E> = Ok(value: T) | Err(error: E)

  /** No element occurs twice. */
  predicate NoDup<T(==)>(s: seq<T>) {
    forall i, j :: 0 <= i < j < |s| ==> s[i] != s[j]
  }
}
