/** Failure-carrying values shared by the whole model. */
module Wrappers {

  /** A value that may be absent: a request field that was not sent, an APK that could not be parsed. */
  datatype Option<+T> = None | Some(value: T)

  /** What a Python call does: return a value, or raise an exception with a message. */
  datatype Outcome<+T> = Returned(value: T) | Raised(message: string)
}
