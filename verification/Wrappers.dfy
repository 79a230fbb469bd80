/** Option, used in place of null pointers and of results that exceptions prevent. */
module Wrappers {
  datatype Option<+T> = None | Some(value: T)
}
