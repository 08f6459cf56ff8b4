/** An optional value, shared by the other modules. */
module Wrappers {

  /** A value that may be absent; stands for Go's nil slices and "not found" results. */
  datatype Option<+T> = None | Some(value: T)
}
