/** Kotlin's nullable value (`T?`) and a call's outcome: either the value
    it returned or the exception it threw. */
module Wrappers {

  /** A value that may be absent, as a Kotlin `T?`. */
  datatype Option<+T> = None | Some(value: T)

  /** The runtime exceptions the modelled code can raise. */
  datatype Error =
    | NegativeSize(size: int)                // IllegalArgumentException from a list constructor
    | IndexOutOfBounds(index: int, size: int) // IndexOutOfBoundsException from `list[index] = v`

  /** Either the value a call produced or the exception it raised. */
  datatype Result<+T> = Ok(value: T) | Err(error: Error)
}
