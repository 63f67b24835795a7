/** Option, used for the values that the Python code returns as `None`. */
module Wrappers {

  datatype Option<+T> = None | Some(value: T)
}
