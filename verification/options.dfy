/** An optional value: stands for a C address that may still be NULL. */
module Options {
  datatype Option<T> = None | Some(value: T)
}
