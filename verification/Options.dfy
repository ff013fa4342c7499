module Options {
  /** A value that may be missing: SQL NULL, nil, an absent map entry. */
  datatype Option<+T> = None | Some(value: T)
}
