/** The optional value the iterator adaptors yield: `Some(x)` or `None` at the end. */
module Wrappers {
  datatype Option<+T> = None | Some(value: T)
}
