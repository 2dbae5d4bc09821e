/** Option and Result: Java's nullable references and thrown exceptions, made explicit. */
module Wrappers {

  /** A Java reference that may be null. */
  datatype Option<+T> = None | Some(value: T)

  /** The outcome of a Java call: a returned value, or the exception it threw. */
  datatype Result<+R, +E> = Success(value: R) | Failure(error: E)
}
