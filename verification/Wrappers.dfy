/** Success-or-error results, in the style of Go's (value, error) pairs. */
module Wrappers {
  datatype Option<+T> = None | Some(value: T)
}
