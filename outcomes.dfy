/**
 * Values shared by the services and the exception handler: an optional value
 * (Java's nullable reference), the failures the services raise, and the HTTP
 * status codes that appear in responses.
 */
module Outcomes {

  /** A Java reference that may be null: `None` stands for `null`. */
  datatype Option<T> = None | Some(value: T)

  /**
   * The failures the two services raise.
   * - NotFound: ProductService raises it for an absent product id. The code
   *   throws it as an IllegalMonitorStateException, a class for which the
   *   exception handler has no method; the controller tests expect a
   *   ProductNotFoundException answered with 404 instead.
   * - UsernameTaken: UserService.create raises it as a
   *   UsernameAlreadyInUseException.
   */
  datatype ServiceError =
    | NotFound(message: string)
    | UsernameTaken(message: string)

  /** The outcome of a service operation that returns a value or throws. */
  datatype Result<T> = Ok(value: T) | Err(error: ServiceError)

  /** The HTTP status codes used by the handler and the delete response. */
  const OK: int := 200
  const BAD_REQUEST: int := 400
  const UNAUTHORIZED: int := 401
  const NOT_FOUND: int := 404
}
