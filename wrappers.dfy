/** Failure-compatible wrappers: the model's stand-ins for C# null and thrown exceptions. */
module Wrappers {

  /** A value that may be absent (a C# null reference or nullable value). */
  datatype Option<+T> = None | Some(value: T)

  /** The outcome of an operation that can throw. */
  datatype Result<+R, +E> = Success(value: R) | Failure(error: E)

  /** The .NET exceptions the modelled code raises. */
  datatype Exception =
    | ArgumentNullException(paramName: string)
    | ArgumentOutOfRangeException(paramName: string)
}
