/** Optional values and results with an error, used for Python's `None` and
    for the fatal exits (`SystemExit`) and exceptions the scripts raise. */
module Wrappers {

  datatype Option<+T> = None | Some(value: T)

  datatype Result<+R, +E> = Success(value: R) | Failure(error: E)
}
