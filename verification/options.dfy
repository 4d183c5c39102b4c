/** The optional value used for results that may be absent (a failed parse). */
module Options {
  datatype Option<+T> = None | Some(value: T)
}
