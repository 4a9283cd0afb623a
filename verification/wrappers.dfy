/** JavaScript's `undefined`/`null` and thrown-or-returned outcomes, as datatypes. */
module Wrappers {

  /** A value that may be absent (`undefined` or `null` in JavaScript). */
  datatype Option<+T> = None | Some(value: T)

  /** Either a value or an error that the JavaScript code would throw. */
  datatype Result<+R, +E> = Ok(value: R) | Err(error: E)
}
