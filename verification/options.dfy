/** The optional value used throughout the model in place of JavaScript's `null`. */
module Options {

  datatype Option<+T> = None | Some(value: T)
}
