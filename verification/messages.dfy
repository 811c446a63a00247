/** The message keys the forms and views report (resolved to text by the
    extension's `get_message`, which is not part of this model). */
module Messages {
  datatype MessageKey =
    // form validation
    | EmailNotProvided            // EMAIL_NOT_PROVIDED
    | InvalidEmailAddress         // INVALID_EMAIL_ADDRESS
    | PasswordNotProvided         // PASSWORD_NOT_PROVIDED
    | PasswordInvalidLength       // PASSWORD_INVALID_LENGTH
    | RetypePasswordMismatch      // RETYPE_PASSWORD_MISMATCH
    | EmailAlreadyAssociated      // EMAIL_ALREADY_ASSOCIATED
    | UserDoesNotExist            // USER_DOES_NOT_EXIST
    | AlreadyConfirmed            // ALREADY_CONFIRMED
    | DisabledAccount             // DISABLED_ACCOUNT
    | PasswordNotSet              // PASSWORD_NOT_SET
    | InvalidPassword             // INVALID_PASSWORD
    | ConfirmationRequired        // CONFIRMATION_REQUIRED
    | PasswordIsTheSame           // PASSWORD_IS_THE_SAME
    | InvalidRedirect             // INVALID_REDIRECT
    | CsrfFailed                  // the CSRF field's own error
    // view flashes
    | InvalidLoginToken           // INVALID_LOGIN_TOKEN
    | LoginExpired                // LOGIN_EXPIRED
    | PasswordlessLoginSuccessful // PASSWORDLESS_LOGIN_SUCCESSFUL
    | InvalidConfirmationToken    // INVALID_CONFIRMATION_TOKEN
    | ConfirmationExpired         // CONFIRMATION_EXPIRED
    | EmailConfirmed              // EMAIL_CONFIRMED
    | InvalidResetPasswordToken   // INVALID_RESET_PASSWORD_TOKEN
    | PasswordResetExpired        // PASSWORD_RESET_EXPIRED
    | PasswordReset               // PASSWORD_RESET
}
