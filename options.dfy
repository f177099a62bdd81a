/** The optional value that stands for JavaScript's `undefined` result of a lookup. */
module Options {
  datatype Option<+T> = None | Some(value: T)
}
