/** Option, used where Python returns None or a lookup may fail. */
module Wrappers {

  datatype Option<+T> = None | Some(value: T)
}
