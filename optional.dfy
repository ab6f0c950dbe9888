/** The optional value shared by the modules. */
module Optional {
  datatype Option<T> = None | Some(value: T)
}
