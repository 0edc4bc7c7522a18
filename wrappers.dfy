/** The optional value shared by the analysis and the echo services. */
module Wrappers {
  datatype Option<T> = None | Some(value: T)
}
