/** The optional value used wherever the source reads a field that may be
    `null`, `undefined` or the empty string. */
module Wrappers {

  datatype Option<+T> = None | Some(value: T)
}
