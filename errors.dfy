/** The error values the middleware writes back to the client (errors.go, middleware.go:95). */
module Errors {

  datatype ApiError =
    | InternalServerError            // "Something went wrong :(", no token in the request context
    | MissingAccessToken             // "Missing access token", the Authorization header is unusable
    | TooManyRequests(msLeft: int)   // the caller's window is exhausted; msLeft until it resets
  {
    /** The HTTP status code carried by the error: a client error, or a server error for the missing context token. */
    function Code(): (c: int)
      ensures 400 <= c < 500 <==> !InternalServerError?
      ensures 500 <= c < 600 <==> InternalServerError?
    {
      match this
      case InternalServerError => 500
      case MissingAccessToken => 401
      case TooManyRequests(_) => 429
    }
  }
}
