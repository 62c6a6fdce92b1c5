/** The optional value the other modules share: a lookup that may find nothing. */
module Options {

  datatype Option<T> = None | Some(value: T)
}
