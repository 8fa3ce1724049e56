/** The optional value used wherever the sources raise, return nothing or miss a key. */
module Wrappers {
  datatype Option<+T> = None | Some(value: T)
}
