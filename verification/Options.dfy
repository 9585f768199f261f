// An optional value: a pointer that may be NULL, an allocation that may fail.
module Options {
  datatype Option<+T> = None | Some(value: T)
}
