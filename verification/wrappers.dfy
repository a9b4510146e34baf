/** The optional-value type used throughout the model (Go's nil pointers, missing map entries). */
module Wrappers {

  datatype Option<+T> = None | Some(value: T)
}
