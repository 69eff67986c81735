/** Failure-aware results shared by the codec and the sort engine. */
module Outcomes {

  /** A value that may be absent: the model of a C# reference that may be null. */
  datatype Option<+T> = None | Some(value: T)

  /** The exceptions the sort engine can raise, one constructor per kind. */
  datatype Error =
    | EmptyInput        // "File can't be empty": the source has zero length
    | MissingSeparator  // no ". " in a line: Slice(0, -1) throws
    | InvalidNumber     // the prefix is not a decimal number: uint.Parse throws FormatException
    | NumberOverflow    // the prefix exceeds uint.MaxValue: uint.Parse throws OverflowException
    | BufferOverflow    // a chunk holds more lines than the row buffer: IndexOutOfRangeException

  /** Either a value or the error that stopped the computation. */
  datatype Result<+T> = Ok(value: T) | Err(error: Error)

  /** The outcome of an operation that returns nothing. */
  datatype Outcome = Done | Fail(error: Error)
}
