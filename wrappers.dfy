/** The optional value the model's error paths use. */
module Wrappers {
  datatype Option<+T> = None | Some(value: T)
}
