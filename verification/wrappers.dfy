/** Option and Result values used across the model for JavaScript's
    `null`/`undefined` and for the backend's HTTP error responses. */
module Wrappers {

  datatype Option<+T> = None | Some(value: T) {

    /** The value, or `default` when absent (`x ?? default`). */
    function GetOr(default: T): T {
      match this
      case Some(v) => v
      case None => default
    }
  }

  datatype Result<+R, +E> = Ok(value: R) | Err(error: E) {

    predicate IsFailure() {
      Err?
    }
  }

  /** `s || null` for a form string: the empty string is sent as `null`,
      any other string as itself. */
  function OrNull(s: string): (r: Option<string>)
    ensures r.None? <==> s == ""
    ensures r.Some? ==> r.value == s
  {
    if s == "" then None else Some(s)
  }

  /** An HTTP error raised by a FastAPI route (`HTTPException`). */
  datatype HttpError = HttpError(status: int, detail: string)
}
