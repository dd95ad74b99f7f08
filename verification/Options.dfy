/** An optional value: the source's NULL-or-pointer results. */
module Options {
  datatype Option<+T> = None | Some(value: T)
}
