/** HTTP outcomes of the route handlers and the optional lookups they rely on. */
module Outcomes {

  /** The status a handler answers with. `Conflict` carries the `field` the
      registration route reports. */
  datatype Status = Ok | BadRequest | Unauthorized | NotFound | Conflict(field: string) | ServerError
  {
    function Code(): int {
      match this
      case Ok => 200
      case BadRequest => 400
      case Unauthorized => 401
      case NotFound => 404
      case Conflict(_) => 409
      case ServerError => 500
    }
  }

  /** A record a store lookup may or may not find (`findOne` / `findById` resolve to `null`). */
  datatype Option<+T> = None | Some(value: T)

  /** A computation that either yields a value or aborts the request with a status. */
  datatype Result<+T> = Success(value: T) | Failure(status: Status)
  {
    predicate IsFailure() { Failure? }

    function PropagateFailure<U>(): Result<U>
      requires Failure?
    {
      Failure(status)
    }

    function Extract(): T
      requires Success?
    {
      value
    }
  }
}
