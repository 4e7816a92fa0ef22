/** Small helper datatypes shared by the other modules. */
module Wrappers {

  /** A value that may be absent (a field missing from a request body, a query with no match). */
  datatype Option<+T> = None | Some(value: T)
}
