/** The optional value used for nullable columns and for replies that may be missing. */
module Wrappers {

  datatype Option<T> = None | Some(value: T)

  /** JavaScript truthiness of a `string | null` value: present and not empty. */
  predicate Truthy(s: Option<string>)
  {
    s.Some? && s.value != ""
  }
}
