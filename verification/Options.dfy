module Options {
  /** A page or address, or the null pointer. */
  datatype Option<+T> = None | Some(value: T)
}
