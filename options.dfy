/** The optional-value datatype used throughout the model (JavaScript's `null`/`undefined` versus a value). */
module Options {
  datatype Option<T> = None | Some(value: T)
}
