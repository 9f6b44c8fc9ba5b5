/** Failure-compatible wrappers shared by the whole model: `Option` stands for
    JavaScript's `null`/`undefined`, `Result` for a value or a thrown error,
    `Outcome` for a `void` function that may throw. */
module Wrappers {

  datatype Option<+T> = None | Some(value: T)

  datatype Result<+R, +E> = Success(value: R) | Failure(error: E)

  datatype Outcome<+E> = Pass | Fail(error: E)

  /** JavaScript truthiness of an optional string: present and not empty. */
  predicate Truthy(s: Option<string>) {
    s.Some? && s.value != ""
  }
}
