/** The optional value the models return where the source returns a null pointer or nothing. */
module Optional {
  datatype Option<T> = None | Some(value: T)
}
