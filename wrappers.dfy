/** Small shared value types: optional values and the HTTP statuses the views answer with. */
module Wrappers {
  datatype Option<T> = None | Some(value: T)

  /** The HTTPStatus members the Flask views return. */
  datatype Status = OK | BAD_REQUEST | UNAUTHORIZED | FORBIDDEN | NOT_FOUND | INTERNAL_SERVER_ERROR

  /** Python truthiness of an optional string: None and "" are falsy. */
  predicate Truthy(s: Option<string>)
  {
    s.Some? && s.value != ""
  }
}
