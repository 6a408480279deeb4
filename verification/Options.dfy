/** A value that may be absent: the models' stand-in for a null pointer or a failed look-up. */
module Options {
  datatype Option<+T> = None | Some(value: T)
}
