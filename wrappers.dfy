/** Small value wrappers shared by the other modules. */
module Wrappers {

  /** An optional value: `undefined` / `null` on the TypeScript side. */
  datatype Option<+T> = None | Some(value: T)

  /** A value or the reason there is none: a `try` block that returns or throws. */
  datatype Result<+T, +E> = Success(value: T) | Failure(error: E)

  /**
   * How an awaited call to the backend ends: it answers, it answers with an
   * `error` object (and changes nothing), or its promise rejects (and
   * changes nothing).
   */
  datatype Reply = Answered | Failed | Threw
}
