/** Small shared datatypes. */
module Base {

  /** A value that may be absent: a missing file, a frame that could not be read,
      an event that did not happen. */
  datatype Option<+T> = None | Some(value: T)
}
