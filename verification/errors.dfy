/** The exceptions the repository throws, as values. */
module Errors {

  /** std::runtime_error and std::invalid_argument, each with its message. */
  datatype Error = RuntimeError(message: string) | InvalidArgument(message: string)

  /** A value, or the exception that replaced it. */
  datatype Result<+T> = Ok(value: T) | Err(error: Error)
}
