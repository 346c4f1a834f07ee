/** Failure-compatible result types shared by the whole model.
    A Java exception thrown by an operation becomes a `Failure` carrying
    the kind of exception; a Java `null` return becomes `None`. */
module Wrappers {

  datatype Option<+T> = None | Some(value: T)

  /** The exception kinds the modelled Java code can raise. */
  datatype Error =
    | EndOfInput          // EOFException from a peek/read past the end of the data
    | IndexOutOfBounds    // IndexOutOfBoundsException from a list or array access
    | IllegalArgument     // IllegalArgumentException from a malformed range
    | Arithmetic          // ArithmeticException: integer division by zero
    | NegativeArraySize   // NegativeArraySizeException from `new byte[size]`
    | NullPointer         // NullPointerException from Assertions.checkNotNull

  datatype Result<+T> = Success(value: T) | Failure(error: Error) {

    predicate IsFailure() {
      Failure?
    }

    function PropagateFailure<U>(): Result<U>
      requires Failure?
    {
      Failure(error)
    }

    function Extract(): T
      requires Success?
    {
      value
    }
  }
}
