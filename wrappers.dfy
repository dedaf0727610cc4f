// Shared result wrapper: the source signals "nothing found" with null or -1.

module Wrappers {
  datatype Option<+T> = None | Some(value: T)
}
