/** Small value wrappers shared by the other modules. */
module Wrappers {

  /** A value that may be absent: a C pointer that may be null, or npos. */
  datatype Option<+T> = None | Some(value: T)
}
