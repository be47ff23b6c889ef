/** Shared value types: optional values, success-or-error results and calendar dates. */
module Common {

  /** A value that may be absent (a Python `None`, a pandas `NaN` or `NaT`). */
  datatype Option<+T> = None | Some(value: T)

  /** The outcome of an operation that either produces a value or raises an error. */
  datatype Result<+T, +E> = Success(value: T) | Failure(error: E)

  /** A calendar date; only its year and month matter to the analytics. */
  datatype Date = Date(year: int, month: int, day: int)

  function Min(a: real, b: real): real
  {
    if a <= b then a else b
  }
}
