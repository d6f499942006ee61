/** The domain exceptions of the service (users.exception.ts and
    auth.exception.ts), the few non-domain failures the model needs, and the
    `Result` type every fallible operation returns instead of throwing. */
module Exceptions {

  /** `UsersExceptionCode` */
  datatype UsersExceptionCode =
    | UserNotFound
    | UserAlreadyExists
    | InvalidEmail
    | InvalidPhone
    | InvalidName
    | InvalidId
    | InvalidLogin

  /** `AuthExceptionCode` */
  datatype AuthExceptionCode =
    | InvalidPassword
    | InvalidToken
    | InvalidRefreshToken
    | ExpiredRefreshToken

  /** What a failing call throws. Only the first two are domain exceptions with
      a stable code; the others stand for what the framework or the database
      raises. Human-readable messages are not modelled. */
  datatype Error =
    | UsersError(users: UsersExceptionCode)
    | AuthError(auth: AuthExceptionCode)
      /** Nest's `UnauthorizedException`, thrown by the bearer guard */
    | Unauthorized
      /** a zod schema rejecting request input */
    | ValidationFailed
      /** the database refusing a write: a CHECK or UNIQUE constraint */
    | ConstraintViolation
      /** an UPDATE ... RETURNING that matched no row: `fromDb(undefined)` throws */
    | MissingRow
      /** PostgreSQL refusing to compile a CHECK's regular expression */
    | InvalidPattern

  datatype Result<+T> = Ok(value: T) | Err(error: Error) {

    predicate IsFailure() {
      Err?
    }

    function PropagateFailure<U>(): Result<U>
      requires Err?
    {
      Err(error)
    }

    function Extract(): T
      requires Ok?
    {
      value
    }
  }

  const BAD_REQUEST: int := 400
  const UNAUTHORIZED: int := 401
  const FORBIDDEN: int := 403
  const NOT_FOUND: int := 404
  const CONFLICT: int := 409

  /** `UsersExceptionHTTPStatus`: not-found is 404, a duplicate is 409, and
      every validation code is 400. */
  function UsersHttpStatus(code: UsersExceptionCode): (status: int)
    ensures status == NOT_FOUND <==> code == UserNotFound
    ensures status == CONFLICT <==> code == UserAlreadyExists
    ensures status == BAD_REQUEST <==> !(code.UserNotFound? || code.UserAlreadyExists?)
    ensures status in {BAD_REQUEST, NOT_FOUND, CONFLICT}
  {
    match code
    case UserNotFound => NOT_FOUND
    case UserAlreadyExists => CONFLICT
    case InvalidEmail => BAD_REQUEST
    case InvalidPhone => BAD_REQUEST
    case InvalidName => BAD_REQUEST
    case InvalidId => BAD_REQUEST
    case InvalidLogin => BAD_REQUEST
  }

  /** `AuthExceptionHTTPStatus`: a bad password or access token is 403, a bad
      or expired refresh token is 401. */
  function AuthHttpStatus(code: AuthExceptionCode): (status: int)
    ensures status == FORBIDDEN <==> code.InvalidPassword? || code.InvalidToken?
    ensures status == UNAUTHORIZED <==> code.InvalidRefreshToken? || code.ExpiredRefreshToken?
    ensures status in {UNAUTHORIZED, FORBIDDEN}
  {
    match code
    case InvalidPassword => FORBIDDEN
    case InvalidToken => FORBIDDEN
    case InvalidRefreshToken => UNAUTHORIZED
    case ExpiredRefreshToken => UNAUTHORIZED
  }

  /** A `DomainException` as built by the `UsersException` and `AuthException`
      constructors: the code it was given and the status the table assigns. */
  datatype DomainException = DomainException(status: int, code: Error)

  function UsersException(code: UsersExceptionCode): (e: DomainException)
    ensures e.code == UsersError(code)
    ensures e.status == UsersHttpStatus(code)
  {
    DomainException(UsersHttpStatus(code), UsersError(code))
  }

  function AuthException(code: AuthExceptionCode): (e: DomainException)
    ensures e.code == AuthError(code)
    ensures e.status == AuthHttpStatus(code)
  {
    DomainException(AuthHttpStatus(code), AuthError(code))
  }
}
