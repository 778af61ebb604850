/** The optional value used for JavaScript's `null` and for a missing drop target. */
module Wrappers {

  datatype Option<+T> = None | Some(value: T)
}
