/** Optional values and results with an error, used wherever the Java code
    has a nullable reference or an early return with an error dialog. */
module Wrappers {

  datatype Option<+T> = None | Some(value: T)

  datatype Result<+R, +E> = Success(value: R) | Failure(error: E)
}
