/** Absent-or-present values: Go's nil pointers and "no rows" results. */
module Options {
  datatype Option<+T> = None | Some(value: T)
}
