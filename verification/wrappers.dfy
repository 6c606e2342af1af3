/** Optional values and success/failure results, used wherever the source
    has `undefined`, a missing file or a thrown error. */
module Wrappers {

  datatype Option<+T> = None | Some(value: T)

  datatype Result<+R, +E> = Success(value: R) | Failure(error: E)
}
