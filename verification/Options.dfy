/** A value that may be missing: a null pointer, a minus infinity, an error return. */
module Options {
  datatype Option<+T> = None | Some(value: T)
}
