/** The optional value the model uses wherever the program may produce nothing. */
module Wrappers {
  datatype Option<+T> = None | Some(value: T)
}
