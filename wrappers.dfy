/// An optional value, used for a Go `error` that may be nil and for parses
/// that may fail.
module Wrappers {
  datatype Option<T> = None | Some(value: T)
}
