/** Responses, thrown errors and handler outcomes. */
module Http {
  import Json

  /** A response body: JSON, nothing (a 204 carries no body), or the plain page
      Express's default error handler writes. */
  datatype Body = JsonBody(value: Json.Value) | Empty | Page(text: string)

  datatype Response = Response(status: int, body: Body)

  /** A thrown JavaScript error, discriminated by its `name` as the error handler does. */
  datatype Error = Error(name: string, message: string)

  /** A route handler either answers or throws (or hands an error to `next`). */
  datatype Outcome = Respond(response: Response) | Throw(error: Error)

  /** `response.status(status).json({ error: msg })` */
  function ErrorResponse(status: int, msg: string): Response {
    Response(status, JsonBody(Json.ErrorBody(msg)))
  }

  /** `response.status(status).json({ message: msg })` */
  function MessageResponse(status: int, msg: string): Response {
    Response(status, JsonBody(Json.MessageBody(msg)))
  }
}
