/** Optional values and outcomes that can fail, shared by every module of the model.
    `None` stands for JavaScript's `null`/`undefined`; `Failure` for a thrown exception
    or a rejected promise, carrying the error message. */
module Wrappers {

  datatype Option<+T> = None | Some(value: T)

  datatype Result<+R, +E> = Success(value: R) | Failure(error: E)

  /** JavaScript truthiness of an optional string: present and not the empty string. */
  predicate Truthy(s: Option<string>) {
    s.Some? && s.value != ""
  }
}
