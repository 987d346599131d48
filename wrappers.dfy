/** The optional value used wherever the source has `undefined`, `NaN` or "no call". */
module Wrappers {
  datatype Option<+T> = None | Some(value: T)
}
