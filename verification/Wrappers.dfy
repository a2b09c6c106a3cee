module Wrappers {
  /** A pointer result: `None` is nullptr. */
  datatype Option<+T> = None | Some(value: T)
}
