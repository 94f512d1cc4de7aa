/** Failure-compatible wrappers shared by every module of the model.

  `Option` stands for JavaScript's `undefined`/`null`-or-value, and `Result`
  for a computation that either yields a value or throws with a message.
*/
module Wrappers {

  datatype Option<+T> = None | Some(value: T)
  {
    /** The value, or `default` when absent (JavaScript's `x ?? default`). */
    function GetOr(default: T): T
    {
      match this
      case Some(v) => v
      case None => default
    }
  }

  datatype Result<+T> = Success(value: T) | Failure(error: string)
}
