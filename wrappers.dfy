/** Small value wrappers shared by the whole model. */
module Wrappers {

  /** Python's `None`-or-value. */
  datatype Option<+T> = None | Some(value: T)

  /** What became of a remote call whose return value is not used: it returned, or it raised. */
  datatype Status = Succeeded | Failed

  /** What became of a remote call whose return value is used: it returned `value`, or it raised.
      The kind of error is not kept: no handler branches on it. */
  datatype Outcome<+T> = Returned(value: T) | Raised
}
