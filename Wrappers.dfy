/** Failure-carrying result types used to model the C# exceptions of the core. */
module Wrappers {

  datatype Option<+T> = None | Some(value: T)

  /** The outcome of a `void` C# member: it returns normally or throws `error`. */
  datatype Outcome<+E> = Pass | Fail(error: E)

  /** The outcome of a value-returning C# member: a value or a thrown `error`. */
  datatype Result<+R, +E> = Success(value: R) | Failure(error: E)
}
