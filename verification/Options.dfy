/** The result of a run of steps, or of a lookup, that may not exist. */
module Options {
  datatype Option<+T> = None | Some(value: T)
}
