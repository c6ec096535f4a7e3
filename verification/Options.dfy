/** A value that may be missing: no result, no guard, or a Python exception. */
module Options {
  datatype Option<+T> = None | Some(value: T)
}
