/** Small value wrappers shared by the resolver and the controller. */
module Wrappers {

  /** A value that may be absent, e.g. a message channel that never produced a message. */
  datatype Option<+T> = None | Some(value: T)
}
