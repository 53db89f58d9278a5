/** Absent-or-present values: the model's stand-in for Java's nullable references. */
module Wrappers {

  datatype Option<+T> = None | Some(value: T)

  /** The outcome of running a piece of Java code that may throw: either the value it
      returned or the fact that an exception escaped it. */
  datatype Attempt<+T> = Returned(value: T) | Threw
}
