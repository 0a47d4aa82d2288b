/** Nullable values and the outcome of calls that may throw. */
module Wrappers {

  /** A Java reference that may be null: `None` stands for null. */
  datatype Option<+T> = None | Some(value: T)

  /** The outcome of a Java call that returns normally or throws. */
  datatype Outcome<+E> = Pass | Fail(error: E)
}
