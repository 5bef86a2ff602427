/** Optional values and failure outcomes shared by the plugin models. */
module Wrappers {

  /** A value that may be missing (JavaScript `undefined`). */
  datatype Option<+T> = None | Some(value: T)

  /** The result of an operation that either completes or throws an error with a message. */
  datatype Outcome<+E> = Pass | Fail(error: E)
}
