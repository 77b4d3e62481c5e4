/** The optional value used where the source tests a value for JavaScript truthiness
    or where a library call may throw. */
module Wrappers {
  datatype Option<+T> = None | Some(value: T)
}
