/** Option and outcome datatypes shared by every module of the model. */
module Wrappers {

  /** The model's stand-in for `undefined`/`null`: a value or nothing. */
  datatype Option<+T> = None | Some(value: T)

  /**
   * What a page handler did: either it went ahead, or it stopped early with the
   * message it showed to the user (a toast, an `alert` or the login error line).
   */
  datatype Outcome = Done | Rejected(message: string)
}
