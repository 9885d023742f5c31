/** The errors the two ring buffers raise, as values instead of C++ exceptions. */
module Outcomes {

  /** std::out_of_range, std::overflow_error and std::underflow_error. */
  datatype Error = OutOfRange | Overflow | Underflow

  /** The result of an operation that produces a value or throws. */
  datatype Result<T> = Ok(value: T) | Err(error: Error)

  /** The result of an operation that produces nothing or throws. */
  datatype Outcome = Pass | Fail(error: Error)
}
