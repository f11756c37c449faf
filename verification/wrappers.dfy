/** The optional value used where the script leaves a name unbound or a
    configuration value as `None`. */
module Wrappers {
  datatype Option<T> = None | Some(value: T)
}
