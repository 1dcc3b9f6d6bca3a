/** A value that may be missing, for what the C code signals with -1, 0 or null. */
module Options {
  datatype Option<T> = None | Some(value: T)
}
