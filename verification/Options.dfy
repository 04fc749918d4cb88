/** An optional value: None stands for a null pointer, a rejected request or an impossible step. */
module Options {
  datatype Option<+T> = None | Some(value: T)
}
