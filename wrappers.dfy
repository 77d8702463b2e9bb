/** Optional values and results with an error, used where JavaScript has
    `null`/`undefined` or throws. */
module Wrappers {

  /** `None` stands for JavaScript's `null` or `undefined`; in the WKT reading
      functions of `MapOptions` it stands for the reader's thrown error. */
  datatype Option<+T> = None | Some(value: T)

  /** A computation that either produces a value or throws `error`. */
  datatype Result<+R, +E> = Success(value: R) | Failure(error: E)
}
