/** Optional values and failure results, standing in for `undefined`/`null` and thrown errors. */
module Wrappers {

  /** `None` plays the part of JavaScript's `undefined` or `null`. */
  datatype Option<+T> = None | Some(value: T)

  /** `Failure` plays the part of an `Error` thrown with a message. */
  datatype Result<+T, +E> = Success(value: T) | Failure(error: E)

  /** A request field that is truthy as a string: present and non-empty. */
  predicate Present(s: Option<string>) {
    s.Some? && s.value != ""
  }
}
