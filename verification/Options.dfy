/** An optional value: SQL's NULL and Python's None. */
module Options {
  datatype Option<+T> = None | Some(value: T)
}
