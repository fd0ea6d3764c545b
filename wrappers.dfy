/** Optional values and the outcome of JavaScript code that may throw. */
module Wrappers {

  /** `None` stands for JavaScript's `undefined` (or an absent entry). */
  datatype Option<+T> = None | Some(value: T)

  /** The result of code that may throw a `TypeError`, which a surrounding `try`/`catch` turns into its error branch. */
  datatype Result<+T> = Ok(value: T) | Thrown
}
