/** The `None`-or-value results the scripts return. */
module Wrappers {
  datatype Option<+T> = None | Some(value: T)
}
