/** The optional value used wherever the source has `undefined` or `null` for "no such thing". */
module Wrappers {

  datatype Option<+T> = None | Some(value: T)
}
