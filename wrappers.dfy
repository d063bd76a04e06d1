/** The optional value returned where the tools return `None`. */
module Wrappers {
  datatype Option<+T> = None | Some(value: T)
}
