/** Option and result values shared by the document modules. */
module Wrappers {

  /** A value that may be missing; also used for C#'s nullable `int?` and for `null` strings. */
  datatype Option<+T> = None | Some(value: T)

  /** The .NET exceptions the modelled code can throw. */
  datatype Thrown = InvalidOperationException | ArgumentOutOfRangeException | IndexOutOfRangeException

  /** The outcome of a call that returns a value or throws. */
  datatype Result<+T> = Ok(value: T) | Fail(error: Thrown)
}
