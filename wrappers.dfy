/** Failure-compatible wrappers standing for .NET null references and exceptions, and the .NET byte. */
module Wrappers {

  /** An unsigned 8-bit value (.NET `byte`). */
  type Byte = b: int | 0 <= b < 256

  /** A possibly-null reference: `None` is `null`. */
  datatype Option<+T> = None | Some(value: T)

  /** The value of an expression that either yields a value or throws. */
  datatype Result<+R, +E> = Success(value: R) | Failure(error: E) {
    predicate IsFailure() { Failure? }

    function PropagateFailure<U>(): Result<U, E>
      requires Failure?
    {
      Failure(error)
    }

    function Extract(): R
      requires Success?
    {
      value
    }
  }

  /** A statement that either completes normally or throws. */
  datatype Outcome<+E> = Pass | Fail(error: E) {
    predicate IsFailure() { Fail? }

    function PropagateFailure(): Outcome<E>
      requires Fail?
    {
      this
    }
  }
}
