module Options {
  /** A pointer result that may be NULL. */
  datatype Option<+T> = None | Some(value: T)
}
