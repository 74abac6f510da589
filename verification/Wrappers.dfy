/** What many of the modules need: a value that may be missing, and bytes. */
module Wrappers {
  datatype Option<T> = None | Some(value: T)

  newtype byte = x: int | 0 <= x < 256
}
