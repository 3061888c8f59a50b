# Login request handler — a Dafny model

This project models the operator login handler of a small actix-web service
(`POST /login`). The handler receives the outcome of credential validation.
On success it renews the session, binds the user id to it, and redirects to
`/admin/dashboard`. On failure it classifies the error into the two-member
`LoginError` taxonomy, queues a one-time flash error with the error's display
text, and redirects back to `/login`. If binding the user id fails after a
successful validation, it degrades to the same error redirect. Every path
answers `303 See Other`.

The handler is modelled as a pure function `LoginPost.Login` over two inputs:

- the outcome of `validate_credentials` (`Authentication.Validation`);
- the outcome `insert_user_id` would have if it is called (`Authentication.BindOutcome`).

It returns a `Traced<HandlerResult>`. `HandlerResult` is either `Ok(response)`
or `Err(InternalError(error, response))`. The effect trace lists, in order, the
calls made to the session store (`Renew`, `InsertUserId(u)`) and to the flash
store (`FlashError(text)`). The trace records which calls are made and in
which order. It does not model what those stores do with them.

Modules:

- `Effects` (`effects.dfy`): the effect events, plus the flash and session-call projections of a trace and their order and multiplicity lemmas.
- `Authentication` (`authentication.dfy`): the handler's inputs: the user id type, `AuthError`, the validation outcome and the bind outcome.
- `LoginPost` (`login_post.dfy`): `LoginError`, `Display`, `Classify`, `LoginRedirect`, `Login`.
- `LoginProperties` (`login_properties.dfy`): the reference decision table and the lemmas that relate several calls.

The validation-failure branch of the handler (src/routes/login/post.rs:58-65)
repeats, inline, exactly the steps of `login_redirect` (lines 85-91). Both are
modelled by the one function `LoginRedirect`.

In the source, `AuthError::InvalidCredentials` carries an internal cause, just
as `UnexpectedError` does, so both variants carry a `Cause` in the model. The
`LoginError` keeps the original error as its `source`. The display text never
depends on that source.

## Model

| member | source | states |
|---|---|---|
| Effects.Flashes | src/routes/login/post.rs:58-58 | A text is among those a trace queues exactly when the trace sends a flash error with that text; at most one text per event |
| Effects.FlashesCount | src/routes/login/post.rs:86-86 | Each text is queued exactly as many times as the trace sends a flash error with it |
| Effects.FlashesOfPrefix | src/routes/login/post.rs:86-86 | Queue order: every prefix of a trace queues a prefix of the trace's flash texts, so texts appear in the order they were sent |
| Effects.SessionCalls | src/routes/login/post.rs:38-39 | An event is among a trace's session calls exactly when the trace makes it and it is a renew or a user-id binding; at most one per event |
| Effects.SessionCallsCount | src/routes/login/post.rs:38-39 | Each renew or binding is kept exactly as often as the trace makes it, and no flash is kept |
| Effects.SessionCallsOfPrefix | src/routes/login/post.rs:38-39 | Call order: every prefix of a trace makes a prefix of the trace's session calls, so renew and bind keep their order |
| Effects.FlashesAppend | src/routes/login/post.rs:38-40 | The flashes of the session prefix followed by the error redirect are the flashes of each part, in order |
| Effects.SessionCallsAppend | src/routes/login/post.rs:38-40 | The session calls of the session prefix followed by the error redirect are the session calls of each part, in order |
| LoginPost.Display | src/routes/login/post.rs:70-76 | `AuthError` shows exactly "Authentication failed" and `UnexpectedError` shows exactly "Something went wrong", whatever the source |
| LoginPost.Classify | src/routes/login/post.rs:46-49 | `InvalidCredentials` maps to `LoginError::AuthError` and `UnexpectedError` to `LoginError::UnexpectedError`; the validation error is kept as the source |
| LoginPost.LoginRedirect | src/routes/login/post.rs:84-91 | The redirect carries the given error, answers 303 to /login, queues exactly one flash with that error's text and makes no session call |
| LoginPost.Login | src/routes/login/post.rs:24-68 | Every path answers 303. The result is Ok, with location /admin/dashboard, exactly when validation succeeded and the bind succeeded; otherwise it is Err with location /login. Every Err queues exactly one flash equal to its error's text, and Ok queues none. A rejected validation makes no session call. A successful one makes exactly Renew then InsertUserId of the validated id, and these are the first two events of the trace. A rejected validation yields the error `Classify` gives for it. No user id other than the validated one is ever bound. The internal cause is kept inside the error |
| LoginProperties.LoginDecisionTable | src/routes/login/post.rs:35-67 | For each of the four input shapes: the exact result (status 303, one of the two paths, the error variant and source) and the exact, complete effect trace |
| LoginProperties.DisplayDistinguishesKinds | src/routes/login/post.rs:72-75 | Only the two fixed messages can be shown, and two errors show the same text exactly when they are the same variant |
| LoginProperties.ClassifyDisplay | src/routes/login/post.rs:46-49 | The shown text is "Authentication failed" exactly for invalid credentials and "Something went wrong" exactly for unexpected validation errors |
| LoginProperties.BindFailureDegradesToLoginRedirect | src/routes/login/post.rs:38-40 | A failed bind after a successful validation yields the unexpected-error login redirect after Renew and the attempted InsertUserId: 303 to /login with the flash "Something went wrong" |
| LoginProperties.RejectionIgnoresBind | src/routes/login/post.rs:45-66 | On a failed validation the bind outcome makes no difference, and the result is the login redirect for the classified error |
| LoginProperties.CauseNeverReachesClient | src/routes/login/post.rs:58-65 | Inputs that differ only in internal causes produce the same response and the same effect trace, flash texts included |
| LoginProperties.UnknownUserIsSentBackToLogin | tests/api/login.rs:11-24 | Invalid credentials produce a 303 to /login and the single flash "Authentication failed" |

## Left out

- `validate_credentials`, the credential-store lookup, the password-hash check and the dummy-hash timing mitigation are not part of this model. Their outcome is the `Validation` input, and wall-clock timing cannot be stated here.
- The behaviour of `TypedSession::renew` and `insert_user_id`, and the one-time consumption of flash messages by the next page render (tests/api/login.rs:23-28), belong to libraries not part of this model. They appear only as trace events.
- The `FormData`/`Credentials` construction and the `Secret<String>` wrapper are left out, because the handler passes them unchanged to validation, which is an input here.
- `tracing` span fields and instrumentation are left out because they are logging only. So are the `Debug` output through `error_chain_fmt`, and the commented-out HMAC query-string and cookie code.
- The asynchronous execution (`.await`) is left out because the handler's decisions are sequential, one after another.
- `src/routes/subscriptions.rs`, `src/main.rs` and `src/startup.rs` are left out because they are database and bootstrap plumbing, with no login decision logic.
- Response headers other than `Location`, and the response body, are left out because the handler sets neither.
