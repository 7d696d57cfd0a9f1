/** A result that may be absent: the NULL returns of the sources. */
module Options {
  datatype Option<+T> = None | Some(value: T)
}
