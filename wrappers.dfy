/** Option type shared by the model's modules. */
module Wrappers {

  /** A value that may be absent (a missing storage key, a style never written). */
  datatype Option<+T> = None | Some(value: T)
}
