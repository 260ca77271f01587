/** Option and Result, standing for Java's nullable references and thrown exceptions. */
module Wrappers {

  /** `None` is a Java `null`. */
  datatype Option<+T> = None | Some(value: T)

  /** `Failure` is an exception thrown out of the operation. */
  datatype Result<+R, +E> = Success(value: R) | Failure(error: E)
}
