/** A datatype that several components use. */
module Common {

  datatype Option<+T> = None | Some(value: T)
}
