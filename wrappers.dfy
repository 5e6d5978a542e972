/** The optional value used wherever the client tests `if x` or `key in d`. */
module Wrappers {

  datatype Option<+T> = None | Some(value: T)
}
