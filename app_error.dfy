/** The service's error value (`error::Error` with `new_error`): a message, an application code and an HTTP status. */
module AppError {

  datatype Error = Error(message: string, code: nat, status: nat)

  /** Code and status of a rejected field (`validator`). */
  const ValidationCode: nat := 1002
  const UnprocessableEntity: nat := 422

  /** Code and status of a failed authentication (`jwt`). */
  const AuthenticationCode: nat := 1001
  const Unauthorized: nat := 401

  const AuthenticationFailure: Error := Error("Authentication failure", AuthenticationCode, Unauthorized)

  function ValidationFailure(message: string): (e: Error)
    ensures e.code == 1002 && e.status == 422 && e.message == message
  {
    Error(message, ValidationCode, UnprocessableEntity)
  }
}
