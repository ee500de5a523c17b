/** Success and error results of the request handlers. */
module Outcomes {

  datatype Option<T> = None | Some(value: T)

  /** The error responses the handlers send, one constructor per HTTP status they use. */
  datatype Failure =
    | BadRequest(message: string)
    | Unauthorized(message: string)
    | Forbidden(message: string)
    | NotFound(message: string)
    | ServerError(message: string)

  /** The HTTP status code the handler sends with a failure. */
  function Status(f: Failure): (code: nat)
    ensures 400 <= code < 600
    ensures code == 500 <==> f.ServerError?
    ensures code < 500 <==> !f.ServerError?
  {
    match f
    case BadRequest(_) => 400
    case Unauthorized(_) => 401
    case Forbidden(_) => 403
    case NotFound(_) => 404
    case ServerError(_) => 500
  }

  /** The message of the TypeError a handler throws when the caller has no document. */
  function NullUser(field: string): string
  {
    "Cannot read properties of null (reading '" + field + "')"
  }

  /** A handler's answer: the JSON body of a 2xx response, or a failure. */
  datatype Result<T> = Ok(value: T) | Err(failure: Failure)
}
