/** The capabilities the security layer calls but does not implement: the
    password hashing context, the e-mail syntax validator, the confirmation
    policy and the authentication-token serializer. Each is an arbitrary total
    function, so every property proved holds whatever they compute. */
module External {
  import opened Users

  datatype Capabilities = Capabilities(
    /** `pwd_context.verify(password, hash)`. */
    verify: (string, string) -> bool,
    /** `pwd_context.encrypt(password)`. */
    encrypt: string -> string,
    /** `pwd_context.identify(text)`: whether `text` is a recognised hash. */
    identify: string -> bool,
    /** The e-mail syntax validator of the form library. */
    isEmail: string -> bool,
    /** `confirmable.requires_confirmation(user)`. */
    requiresConfirmation: User -> bool,
    /** `user.get_auth_token()`. */
    authToken: User -> string)
}
