/** The result type the other modules share. */
module Wrappers {

  /** A value or nothing, where Java has a reference that may be null. */
  datatype Option<+T> = None | Some(value: T)
}
