/** An optional value, for the fields and results that Python leaves as `None`. */
module Wrappers {
  datatype Option<+T> = None | Some(value: T)
}
