/** The optional value used for lookups that may find nothing. */
module Wrappers {

  /** A value that may be absent: an empty car-ID query or a missing edge. */
  datatype Option<+T> = None | Some(value: T)
}
