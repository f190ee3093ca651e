/** A value that may be absent: a nil field, a NULL column, an empty result. */
module Options {
  datatype Option<+T> = None | Some(value: T)
}
