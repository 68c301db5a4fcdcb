/** The HTTP errors the NestJS services throw, each with its message. */
module Http {
  import opened Text

  datatype HttpError =
    | BadRequest(message: String)
    | Unauthorized(message: String)
    | Forbidden(message: String)
    | NotFound(message: String)
    | Conflict(message: String)
    | PayloadTooLarge(message: String)
    | InternalServerError(message: String)  // an exception the service does not catch
}
