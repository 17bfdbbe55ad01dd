/** A value that may be missing: None, or the revert of a call that carries no reason. */
module Options {
  datatype Option<+T> = None | Some(value: T)
}
