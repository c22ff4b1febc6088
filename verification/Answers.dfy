/** What a remote call can give back, and the usual optional value. */
module Answers {

  datatype Option<+T> = None | Some(value: T)

  /** One answer of a remote procedure call: a value, or an error of whatever kind. */
  datatype Answer<+T> = Failed | Ok(value: T)
}
