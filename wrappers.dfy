/** Result type for the operations that raise. */
module Wrappers {

  /** Either a value or the error the operation raised instead. */
  datatype Result<+R, +E> = Success(value: R) | Failure(error: E)
}
