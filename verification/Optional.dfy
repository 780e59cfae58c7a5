/** A value that may be absent: a null pointer, a failed search, an error without details. */
module Optional {
  datatype Option<+T> = None | Some(value: T)
}
