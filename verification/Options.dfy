/** The absent-or-present type the model shares. */
module Options {
  datatype Option<+T> = None | Some(value: T)
}
