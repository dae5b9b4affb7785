/** The outcome of a route handler: a JSON body with its HTTP status. */
module Http {
  datatype Response<T> =
    | Ok(value: T)                 // 200 with the value as its JSON body
    | BadRequest(message: string)  // 400 {message}
    | NotFound(message: string)    // 404 {message}
    | ServerError(message: string) // 500 {message}, what the handlers' catch blocks send
  {
    function Status(): nat {
      match this
      case Ok(_) => 200
      case BadRequest(_) => 400
      case NotFound(_) => 404
      case ServerError(_) => 500
    }
  }
}
