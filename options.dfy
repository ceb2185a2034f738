/** An optional value: the model's stand-in for Python's `None`. */
module Options {

  datatype Option<T> = None | Some(value: T)
}
