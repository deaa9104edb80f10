/** Option and Result: the absent values and raised exceptions of the registry code. */
module Wrappers {

  datatype Option<T> = None | Some(value: T)

  /** A computation that either produced a value or raised the named error. */
  datatype Result<T, E> = Ok(value: T) | Err(error: E)

  /** Python truthiness of an optional string: present and non-empty. */
  predicate Truthy(s: Option<string>)
  {
    s.Some? && s.value != ""
  }
}
