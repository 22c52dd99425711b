/** Option and Result, used for the drivers' assertion failures and for values only some ranks produce. */
module Wrappers {
  datatype Option<+T> = None | Some(value: T)

  datatype Result<+R, +E> = Success(value: R) | Failure(error: E)
}
