/**
 * Outcome types shared by every part of the model.
 *
 * The remote data service is reached over the network; whether one round trip
 * gets through is not something the application decides, so every remote call
 * of the model takes a `Transport` value saying how that call went.
 */
module Common {

  datatype Option<+T> = None | Some(value: T)

  /** What a JavaScript `catch` receives: an `Error` object (with its message) or any other value. */
  datatype Thrown = ErrorObject(message: string) | NonError

  /** How one round trip to the remote service went. */
  datatype Transport = Delivered | Failed(thrown: Thrown)

  /** The result of an operation that throws on failure. */
  datatype Result<+T> = Ok(value: T) | Err(thrown: Thrown)

  /** `err instanceof Error ? err.message : fallback` */
  function MessageOf(t: Thrown, fallback: string): (m: string)
    ensures t.ErrorObject? ==> m == t.message
    ensures t.NonError? ==> m == fallback
  {
    match t
    case ErrorObject(msg) => msg
    case NonError => fallback
  }

  /** JavaScript `s || fallback` on an optional string: the empty string is falsy. */
  function OrElse(s: Option<string>, fallback: string): (r: string)
    ensures s.Some? && s.value != "" ==> r == s.value
    ensures s.None? || s.value == "" ==> r == fallback
  {
    if s.Some? && s.value != "" then s.value else fallback
  }

  /** JavaScript `s || null` on an optional string. */
  function OrNull(s: Option<string>): (r: Option<string>)
    ensures r.Some? <==> s.Some? && s.value != ""
    ensures r.Some? ==> r == s
  {
    if s.Some? && s.value != "" then s else None
  }
}
