/** The optional value and the fallible result shared by all modules. */
module Wrappers {
  datatype Option<+T> = None | Some(value: T)

  /** Error codes of the standard library, as far as they are used. */
  datatype Errc = InvalidArgument | ValueTooLarge | OutOfRange

  datatype Result<+T> = Ok(value: T) | Err(error: Errc)
}
