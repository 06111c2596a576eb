/** Values that may be absent: the source's null references. */
module Wrappers {
  datatype Option<+T> = None | Some(value: T)
}
