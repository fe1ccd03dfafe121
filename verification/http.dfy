/** The outcome of a request handler, reduced to its status and payload. */
module Http {

  /**
   * The codes the handlers pass to `abort`, plus the 500 the framework answers with when
   * an exception escapes a handler.
   */
  datatype Status = BadRequest | NotFound | Unprocessable | ServerError {
    function Code(): int {
      match this
      case BadRequest => 400
      case NotFound => 404
      case Unprocessable => 422
      case ServerError => 500
    }
  }

  /** A 200 response carrying `body`, or an aborted request. */
  datatype Reply<T> = Success(body: T) | Abort(status: Status)
}
