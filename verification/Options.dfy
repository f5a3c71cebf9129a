/** A value that may be missing: an absent entry, or a call that failed. */
module Options {
  datatype Option<+T> = None | Some(value: T)
}
