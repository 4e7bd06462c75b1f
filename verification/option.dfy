/** The optional value returned by the lookups and by `remove_child`. */
module Optional {

  /** `Some(value)` when there is a value, `None` otherwise. */
  datatype Option<+T> = None | Some(value: T)

}
