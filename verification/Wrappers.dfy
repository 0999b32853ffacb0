/** Values that may be absent, standing for Go's nil and Python's None. */
module Wrappers {

  datatype Option<+T> = None | Some(value: T)
}
