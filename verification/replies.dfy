/** The outcome shapes shared by every handler of the server.

- Option<T>: a value that may be absent (Python's `None`, `dict.get` misses).
- Reply<T>: what a request handler answers, either a value or an HTTP error
  raised as `HTTPException(status_code, detail)`.
*/
module Replies {

  datatype Option<+T> = None | Some(value: T)

  /** A handler's answer: a response body, or an HTTP error with its status code and detail text. */
  datatype Reply<+T> = Ok(value: T) | Fail(status: int, detail: string)

  const BadRequest := 400
  const Unauthorized := 401
  const NotFound := 404
}
