/** Failure-compatible wrappers and the .NET exceptions the modelled code can raise. */
module Outcomes {

  /** A value that may be absent: stands for a C# reference that may be null. */
  datatype Option<+T> = None | Some(value: T)

  /** Either a value or the exception a .NET call throws instead of returning. */
  datatype Result<+T> = Success(value: T) | Failure(error: Exception) {

    predicate IsFailure() {
      Failure?
    }

    function PropagateFailure<U>(): Result<U>
      requires Failure?
    {
      Failure(error)
    }

    function Extract(): T
      requires Success?
    {
      value
    }
  }

  /** The exceptions that can escape the modelled code paths. */
  datatype Exception =
    | FormatException            // Int32.Parse on text that is not an integer
    | OverflowException          // Int32.Parse on an integer outside 32 bits
    | IndexOutOfRangeException   // indexing a part that Split did not produce
    | KeyNotFoundException       // a dictionary lookup of a missing key
    | NullReferenceException     // a member call on a null string
}
