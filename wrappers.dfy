/** The optional-value datatype used for parse results and query answers. */
module Wrappers {

  datatype Option<+T> = None | Some(value: T)
}
