module Wrappers {

  /** A value that may be missing: SQL's NULL, and an exception that leaves no value. */
  datatype Option<T> = None | Some(value: T)
}
