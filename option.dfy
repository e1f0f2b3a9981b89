/** The usual optional value: `None` where Python has no entry (or `None`). */
module Optional {
  datatype Option<+T> = None | Some(value: T)
}
