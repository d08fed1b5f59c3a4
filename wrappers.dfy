/** The optional value used wherever the app has `undefined` or a missing entry. */
module Wrappers {

  datatype Option<+T> = None | Some(value: T)
}
