/** Option and Result values: Ruby's nil and raised exceptions, made explicit. */
module Wrappers {

  /** A value that may be absent (Ruby `nil`). */
  datatype Option<T> = None | Some(value: T) {
    /** The value, or `default` when absent. */
    function GetOr(default: T): T {
      match this
      case Some(v) => v
      case None => default
    }
  }

  /** The outcome of a call that may raise. */
  datatype Result<R, E> = Ok(value: R) | Err(error: E)
}
