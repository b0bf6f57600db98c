/** A value or none: a null pointer, a failed allocation, a missing answer. */
module Options {
  datatype Option<T> = None | Some(value: T)
}
