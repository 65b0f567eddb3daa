/** A value that may be absent: a pointer that may be RT_NULL. */
module Wrappers {

  datatype Option<+T> = None | Some(value: T)
}
