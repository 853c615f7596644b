/** The optional value that stands for Python's `Optional[...]` / `None`. */
module Wrappers {
  datatype Option<+T> = None | Some(value: T)
}
