/** A value or none: a NULL pointer, a failed look-up, a script that gives up. */
module Options {
  datatype Option<+T> = None | Some(value: T)
}
