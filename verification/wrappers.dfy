/** The optional values of the user record (`otp`, `otpExpires`) and of the mail a handler sends. */
module Wrappers {

  /** `None` stands for a JavaScript `null`, which is what the handlers store in a cleared field. */
  datatype Option<+T> = None | Some(value: T)
}
