/** Optional values and success-or-failure outcomes, used for JavaScript's
    `null`/`undefined` and for a promise that fulfils or rejects. */
module Wrappers {

  /** A value that may be absent (`null` or `undefined` in the source). */
  datatype Option<+T> = None | Some(value: T)

  /** The settlement of an operation that returns nothing: it completes, or it
      throws (an `async` function's promise rejects) with `error`. */
  datatype Outcome<+E> = Pass | Fail(error: E)
}
