/** A value that may be missing: the model's way of saying "the draws ran out". */
module Options {
  datatype Option<T> = None | Some(value: T)
}
