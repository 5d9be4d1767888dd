/** The usual optional value, standing for the source's `None` results. */
module Option {
  datatype Option<+T> = None | Some(value: T)
}
