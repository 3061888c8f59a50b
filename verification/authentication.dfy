/**
 The inputs the login handler receives from collaborators whose code is not
 part of this model: the outcome of credential validation and the outcome of
 binding the user id into the session.
 */
module Authentication {

  /** A user id: a 128-bit UUID, kept as its 16 bytes. */
  type Uuid = b: seq<bv8> | |b| == 16 witness seq(16, _ => 0)

  /** An internal diagnostic (an `anyhow::Error` chain); kept for logs, never shown to the client. */
  type Cause = string

  /** The two ways credential validation can fail. */
  datatype AuthError =
    | InvalidCredentials(cause: Cause) // unknown user or wrong password
    | UnexpectedError(cause: Cause)    // storage or hashing infrastructure fault

  /** The result of `validate_credentials`: the user id on a real match, or an `AuthError`. */
  datatype Validation = Validated(userId: Uuid) | Rejected(error: AuthError)

  /** The result of `TypedSession::insert_user_id`. */
  datatype BindOutcome = Bound | BindFailed(cause: Cause)
}
