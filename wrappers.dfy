// Optional values, used where the source signals "not found" with a flag.

module Wrappers {
  datatype Option<T> = None | Some(value: T)
}
