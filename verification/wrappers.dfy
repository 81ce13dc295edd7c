/** The optional value used throughout the model: Python's `None` is `None`, any other value `Some`. */
module Wrappers {

  datatype Option<+T> = None | Some(value: T)
}
