/** Small value wrappers shared by the modules of the dashboard model. */
module Common {

  /** A value that may be missing: Python's None, or pandas' NaN in a mapped column. */
  datatype Option<+T> = None | Some(value: T)

  /** The outcome of an operation that raises in the source instead of returning. */
  datatype Result<+T, +E> = Ok(value: T) | Err(error: E)

  /** No value occurs twice in `s` (a column list, a multiselect result). */
  predicate Distinct<T(==)>(s: seq<T>)
  {
    forall i, j :: 0 <= i < j < |s| ==> s[i] != s[j]
  }
}
