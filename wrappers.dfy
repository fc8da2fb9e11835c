/** The `undefined`-or-value results of the source, as an Option. */
module Wrappers {

  datatype Option<+T> = None | Some(value: T)
}
