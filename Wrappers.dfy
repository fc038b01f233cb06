/** Option and Result, used for the values the source leaves missing (NaN in a
    pandas column) and for the exceptions it raises. */
module Wrappers {

  datatype Option<+T> = None | Some(value: T)

  datatype Result<+R, +E> = Success(value: R) | Failure(error: E)
}
