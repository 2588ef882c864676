/** Option type for values the source represents as `None` on failure. */
module Wrappers {

  datatype Option<+T> = None | Some(value: T)
}
