/**
 * What a request handler answers: either a value or one of the error kinds the handlers
 * respond with, together with the state the handler leaves behind (a handler may fail after
 * it has already written).
 */
module Api {
  import opened Store

  datatype Failure =
    | MethodNotAllowed   // 405
    | Unauthorized       // 401: the `uid` header names no user
    | Forbidden          // 403: the caller does not hold the reservation
    | NotFound           // 404
    | InvalidSlot        // 400: no slot with that number
    | SlotTaken          // 400: the slot already holds a post
    | PaymentIncomplete  // 400: the checkout session is not paid
    | MetadataMismatch   // 400: the session belongs to another reservation
    | BadRequest         // 400: the submitted post is rejected
    | GatewayError       // 500: the payment gateway call threw
    | ServerError        // 500: a save failed

  /** The HTTP status each error kind is answered with. */
  function StatusCode(f: Failure): (code: int)
    ensures 400 <= code < 600
    ensures code >= 500 <==> f.GatewayError? || f.ServerError?
  {
    match f
    case MethodNotAllowed => 405
    case Unauthorized => 401
    case Forbidden => 403
    case NotFound => 404
    case InvalidSlot => 400
    case SlotTaken => 400
    case PaymentIncomplete => 400
    case MetadataMismatch => 400
    case BadRequest => 400
    case GatewayError => 500
    case ServerError => 500
  }

  datatype Result<+T> = Ok(value: T) | Err(failure: Failure)

  /** The state a handler leaves and what it answers. */
  datatype Outcome<+T> = Outcome(db: Db, result: Result<T>)
}
