module Options {
  /** A value that may be absent; Go's nil where a pointer or an error may be nil. */
  datatype Option<+T> = None | Some(value: T)
}
