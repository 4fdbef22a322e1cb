/** Small helper datatypes shared by the other modules. */
module Wrappers {

  /** A value that may be absent: an unset environment variable, a missing JSON field, a failed regex match. */
  datatype Option<+T> = None | Some(value: T)
}
