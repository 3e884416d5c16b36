/** The optional value used for a parsed number that may be NaN. */
module Wrappers {

  datatype Option<+T> = None | Some(value: T)
}
