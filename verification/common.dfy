/** Shared vocabulary: optional values, document ids, and the store faults a
    handler can observe (a `findOne` or `save` that throws). */
module Common {

  datatype Option<+T> = None | Some(value: T)

  datatype Result<+T> = Ok(value: T) | Err(error: string)

  /** Document ids (Mongo ObjectIds) are compared as their string form. */
  type Id = string

  /** Timestamps are milliseconds since the epoch, supplied by the caller. */
  type Time = int

  /** JavaScript truthiness of an optional string parameter: absent and `''`
      are both falsy. */
  predicate Truthy(s: Option<string>) {
    s.Some? && s.value != ""
  }

  /** `x || fallback` for an optional string field. */
  function OrElse(s: Option<string>, fallback: string): (r: string)
    ensures Truthy(s) ==> r == s.value
    ensures !Truthy(s) ==> r == fallback
  {
    if s.Some? && s.value != "" then s.value else fallback
  }

  /** `n || 0` for an optional number: absent and 0 both give 0. */
  function OrZero(n: Option<int>): (r: int)
    ensures n.None? ==> r == 0
    ensures n.Some? ==> r == n.value
  {
    if n.Some? && n.value != 0 then n.value else 0
  }

  /** A schema `default`: applied only when the field is absent. */
  function Default<T>(o: Option<T>, d: T): T {
    if o.Some? then o.value else d
  }
}
