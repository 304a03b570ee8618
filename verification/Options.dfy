/** A value that may be absent: a C pointer that may be NULL, or a -1 return. */
module Options {
  datatype Option<T> = None | Some(value: T)
}
