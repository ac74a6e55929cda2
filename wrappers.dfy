/** Python's `Optional[...]` return values. */
module Wrappers {

  datatype Option<+T> = None | Some(value: T)
}
