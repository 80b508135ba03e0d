// Option, shared by every module that models a nullable column or an optional reply field.
module Wrappers {
  datatype Option<+T> = None | Some(value: T)
}
