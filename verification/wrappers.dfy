/** Option and Result datatypes: Java's nullable references and thrown
    exceptions become explicit values in this model. */
module Wrappers {

  /** A value that may be absent (a Java `null`). */
  datatype Option<T> = None | Some(value: T)
  {
    /** The carried value, or `fallback` when absent. */
    function ValueOr(fallback: T): T
    {
      if Some? then value else fallback
    }
  }

  /** The outcome of an operation that either returns a value or throws. */
  datatype Result<S, E> = Success(value: S) | Failure(error: E)
}
