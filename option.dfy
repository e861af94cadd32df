// The optional value shared by the modules that model a result that may be absent.
module Options {
  datatype Option<T> = None | Some(value: T)
}
