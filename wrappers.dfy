/** The optional value used for "a number, or nothing" results. */
module Wrappers {

  datatype Option<+T> = None | Some(value: T)
}
