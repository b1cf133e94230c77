/** A value that may be missing: an absent log file, a call that takes no temperature. */
module Options {
  datatype Option<T> = None | Some(value: T)
}
