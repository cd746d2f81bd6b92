/** What a route handler answers: a status code with a body, or an error
    status with its message. Response framing (JSON, headers) is not modelled. */
module Http {
  import opened Wrappers

  const OK: nat := 200
  const CREATED: nat := 201
  const BAD_REQUEST: nat := 400
  const UNAUTHORIZED: nat := 401
  const FORBIDDEN: nat := 403
  const NOT_FOUND: nat := 404
  const CONFLICT: nat := 409
  const SERVER_ERROR: nat := 500

  datatype Outcome<+T> =
    | Success(status: nat, value: T)
    | Failure(status: nat, error: string)

  /** JavaScript truthiness of an optional string from a request body:
      absent, `null` and `""` are falsy. */
  function Truthy(s: Option<string>): (b: bool)
    ensures b <==> s.Some? && |s.value| > 0
  {
    s.Some? && s.value != ""
  }

  /** `s || null`: a falsy string becomes absent. */
  function OrNull(s: Option<string>): (r: Option<string>)
    ensures r.Some? <==> Truthy(s)
    ensures r.Some? ==> r == s
  {
    if Truthy(s) then s else None
  }

  /** `s || fallback` for a string. */
  function OrDefault(s: Option<string>, fallback: string): (r: string)
    ensures Truthy(s) ==> r == s.value
    ensures !Truthy(s) ==> r == fallback
  {
    if Truthy(s) then s.value else fallback
  }

  /** SQL `COALESCE($n, column)`: the supplied value, or the old one when
      the request leaves it out or sends `null`. */
  function Coalesce<T>(given: Option<T>, current: T): (r: T)
    ensures given.Some? ==> r == given.value
    ensures given.None? ==> r == current
  {
    if given.Some? then given.value else current
  }
}
