/** A value or nothing: what the C sources express by a null pointer or a failed call. */
module Wrappers {
  datatype Option<T> = None | Some(value: T)
}
