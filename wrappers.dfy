/** A possibly missing value, standing for Ruby's `nil`. */
module Wrappers {
  datatype Option<T> = None | Some(value: T)
}
