/** The exceptions the security layer raises or catches. */
module Exceptions {
  import opened Users

  datatype Exception =
    | UserNotFoundError
    | UserIdNotFoundError
    | RoleNotFoundError
    | UserCreationError(message: string)
    | RoleCreationError(message: string)
    | ResetPasswordError(message: string)
    | TokenExpiredError(message: string, user: User)
    | BadCredentialsError(message: string)
    | AuthenticationError(message: string)
    /** Python built-in errors that surface from the modelled code. */
    | ValueError(message: string)
    | TypeError(message: string)
    | AttributeError(message: string)
    | IndexError(message: string)
    | KeyError(key: string)
    | OverflowError(message: string)
}
