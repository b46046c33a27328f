/**
 * The two result shapes the model uses: a value that may be missing and an
 * outcome that may carry an error. `Option` supports `:-`, so a decoder can
 * stop at the first missing field.
 */
module Wrappers {

  /** Python's `None`, or a present value. */
  datatype Option<+T> = None | Some(value: T) {

    /** `:-` stops on an absent value. */
    predicate IsFailure() {
      !Some?
    }

    /** An absent value of any other type, for `:-` to return. */
    function PropagateFailure<U>(): Option<U>
      requires IsFailure()
    {
      None
    }

    /** The present value, for `:-` to bind. */
    function Extract(): T
      requires !IsFailure()
    {
      this.value
    }

    /** The present value, or `fallback` when there is none. */
    function ValueOr(fallback: T): T {
      if Some? then value else fallback
    }
  }

  /** The outcome of an operation that can raise. */
  datatype Result<+R, +E> = Success(value: R) | Failure(error: E)
}
