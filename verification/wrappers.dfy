/** The "value or NaN" wrapper used for every column that pandas may leave undefined. */
module Wrappers {
  datatype Option<+T> = None | Some(value: T)
}
