/** The optional value used where the quiz starts from `null` or where parsing can fail. */
module Options {
  datatype Option<+T> = None | Some(value: T)
}
