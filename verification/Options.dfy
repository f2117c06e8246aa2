/** A value that may be absent: the source's nil pointers and nil errors. */
module Options {
  datatype Option<+T> = None | Some(value: T)
}
