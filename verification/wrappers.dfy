/** The optional value used throughout the model in place of Go's nil and `ok` results. */
module Wrappers {

  datatype Option<+T> = None | Some(value: T)
}
