/** Option and Result values used for the handlers' error returns and for the
    JavaScript values that may be null or undefined. */
module Results {

  /** A value that may be missing (JavaScript `null` / `undefined`). */
  datatype Option<+T> = None | Some(value: T) {

    /** The value when present, otherwise `default` (the `??` operator). */
    function GetOr(default: T): T {
      match this
      case Some(v) => v
      case None => default
    }
  }

  /** The outcome of a request handler: a success value or the error it answers with. */
  datatype Result<+T, +E> = Ok(value: T) | Err(error: E)

  /** JavaScript truthiness of an optional string: present and not empty. */
  predicate Truthy(s: Option<string>) {
    s.Some? && s.value != ""
  }

  /** The `a || b` operator on optional strings. */
  function OrElse(a: Option<string>, b: string): (r: string)
    ensures Truthy(a) ==> r == a.value
    ensures !Truthy(a) ==> r == b
  {
    if Truthy(a) then a.value else b
  }
}
