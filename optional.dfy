/** The optional value used where the source returns "nothing found". */
module Optional {
  datatype Option<T> = None | Some(value: T)
}
