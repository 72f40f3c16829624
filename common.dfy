/** Small value wrappers shared by every module of the model. */
module Common {

  /** An optional value: `None` stands for JavaScript's `null`/`undefined` where only one of them can occur. */
  datatype Option<+T> = None | Some(value: T)

  /**
   * What a server action hands back to its caller.  The actions distinguish
   * `null` (returned explicitly) from `undefined` (falling off the end of a
   * `catch` block), so both are kept apart here.
   */
  datatype Reply<+T> = Value(value: T) | Null | Undefined

  /** Outcome of an operation whose error propagates to the caller as a thrown exception. */
  datatype Result<+T, +E> = Ok(value: T) | Err(error: E)
}
