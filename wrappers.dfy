/** The optional value used throughout the model (Python's `None` and the absent result of a failing step). */
module Wrappers {

  datatype Option<+T> = None | Some(value: T)
}
