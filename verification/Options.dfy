/** A value that may be missing: null pointers, NONE constants and failed look-ups. */
module Options {

  datatype Option<T> = None | Some(value: T)
}
