/** A value that may be absent: the source's null results. */
module Options {
  datatype Option<+T> = None | Some(value: T)
}
