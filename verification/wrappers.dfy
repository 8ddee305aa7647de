/** Option, for a lookup that may find nothing or a parse that may fail. */
module Wrappers {

  datatype Option<+T> = None | Some(value: T)
}
