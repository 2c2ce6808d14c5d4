// An optional value: null, undefined or an absent field.
module Wrappers {
  datatype Option<+T> = None | Some(value: T)
}
