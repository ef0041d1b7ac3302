/** Failure-compatible wrappers shared by every module of the model.
    The simulator signals errors with Java exceptions; each exception class it throws
    becomes one constructor of `Exception`, and a call that may throw returns a `Result`. */
module Results {

  /** The exception classes the simulator throws. */
  datatype Exception =
    | IllegalArgument      // IllegalArgumentException (also NumberFormatException's parent)
    | InsufficientBalance  // investors.InsufficientBalanceException
    | NoSuchElement        // java.util.NoSuchElementException
    | NumberFormat         // NumberFormatException from Integer.parseInt
    | IndexOutOfBounds     // ArrayIndexOutOfBoundsException / IndexOutOfBoundsException
    | NullPointer          // a field read before it was ever assigned

  datatype Option<+T> = None | Some(value: T)

  datatype Result<+T> = Success(value: T) | Failure(error: Exception) {

    predicate IsFailure() {
      Failure?
    }

    function PropagateFailure<U>(): Result<U>
      requires Failure?
    {
      Failure(error)
    }

    function Extract(): T
      requires Success?
    {
      value
    }
  }
}
