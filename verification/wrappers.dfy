/** Failure-compatible wrappers used throughout the model: Python's `None`
    becomes `Option.None`, and an exception a caller may observe becomes
    `Result.Failure`. */
module Wrappers {

  datatype Option<+T> = None | Some(value: T) {

    predicate IsFailure() {
      None?
    }

    function PropagateFailure<U>(): Option<U>
      requires None?
    {
      None
    }

    function Extract(): T
      requires Some?
    {
      value
    }

    /** The value, or `default` for `None` (Python's `x or default` on an optional). */
    function GetOr(default: T): T {
      match this
      case Some(v) => v
      case None => default
    }
  }

  datatype Result<+R, +E> = Success(value: R) | Failure(error: E) {

    predicate IsFailure() {
      Failure?
    }

    function PropagateFailure<U>(): Result<U, E>
      requires Failure?
    {
      Failure(error)
    }

    function Extract(): R
      requires Success?
    {
      value
    }

    function ToOption(): Option<R> {
      match this
      case Success(v) => Some(v)
      case Failure(_) => None
    }
  }

  /** An optional key of a Python mapping read with `[]` or `in`: absent, an
      explicit `None`, or a value. (`.get` cannot tell the first two apart,
      and the model uses `Option` there.) */
  datatype Key<+T> = Absent | Null | Given(value: T)
}
