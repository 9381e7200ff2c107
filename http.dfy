/** Outcomes of the request handlers: a value on success, or the HTTP error
    the handler raises. Only status codes are modelled, not the detail text. */
module Http {

  datatype Option<+T> = None | Some(value: T)

  /** The three errors the handlers raise. */
  datatype HttpError = EmailTaken | Unauthorized | NotFound
  {
    /** The HTTP status code sent for this error. */
    function Status(): int
    {
      match this
      case EmailTaken => 400
      case Unauthorized => 401
      case NotFound => 404
    }
  }

  /** What a handler answers: a 200 response carrying a value, or an error. */
  datatype Reply<+T> = Ok(value: T) | Err(error: HttpError)
}
