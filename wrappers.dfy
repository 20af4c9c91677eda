/** The model's stand-ins for .NET exceptions. */
module Wrappers {

  /** A value, or nothing (the .NET call threw). */
  datatype Option<+T> = None | Some(value: T)

  /** A value, or a tagged error. */
  datatype Result<+T, +E> = Success(value: T) | Failure(error: E)
}
