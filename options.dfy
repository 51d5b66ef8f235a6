/** The absent-or-present value, used where JavaScript yields `undefined`. */
module Options {
  datatype Option<+T> = None | Some(value: T)
}
