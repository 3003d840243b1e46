/** The usual optional value; `None` stands for JavaScript's `undefined` or a failed match. */
module Options {
  datatype Option<+T> = None | Some(value: T)
}
