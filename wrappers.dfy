/** Rust's `Option<T>`, used for optional handlers, decoded keys and exec invocations. */
module Wrappers {

  datatype Option<T> = None | Some(value: T)

}
