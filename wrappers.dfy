/** The optional value used wherever the PHP code holds a value or `null`/`false`. */
module Wrappers {
  datatype Option<+T> = None | Some(value: T)
}
