/** An optional value: `None` stands for JavaScript's `null` or a missing field. */
module Wrappers {
  datatype Option<+T> = None | Some(value: T)
}
