/**
 The POST /login request handler: it turns the outcome of credential
 validation into a see-other redirect, renewing and binding the session on
 success and queueing a one-time flash error on failure.
 */
module LoginPost {
  import opened Effects
  import Authentication

  /** HTTP 303 See Other: redirect-after-post, so a reload does not resubmit credentials. */
  const SeeOther: nat := 303
  const DashboardPath: string := "/admin/dashboard"
  const LoginPath: string := "/login"

  const AuthFailedMessage: string := "Authentication failed"
  const UnexpectedMessage: string := "Something went wrong"

  /** The internal cause a `LoginError` carries as its source. */
  datatype Source =
    | FromAuth(authError: Authentication.AuthError) // the validation error, converted into `anyhow::Error`
    | FromSession(cause: Authentication.Cause)     // the error returned by `insert_user_id`

  /** The handler's error taxonomy; the source is kept for diagnostics only. */
  datatype LoginError =
    | AuthError(source: Source)
    | UnexpectedError(source: Source)

  /** The only response header the handler sets is `Location`. */
  datatype HttpResponse = HttpResponse(status: nat, location: string)

  /** actix-web's `InternalError`: an error paired with the response to emit for it. */
  datatype InternalError = InternalError(error: LoginError, response: HttpResponse)

  /** `Result<HttpResponse, InternalError<LoginError>>`. */
  datatype HandlerResult = Ok(ok: HttpResponse) | Err(failure: InternalError) {
    /** The response the framework sends, whichever side it is carried on. */
    function Response(): HttpResponse {
      match this
      case Ok(resp) => resp
      case Err(f) => f.response
    }
  }

  function SeeOtherTo(location: string): HttpResponse {
    HttpResponse(SeeOther, location)
  }

  /** The user-visible text of a login error; it depends on the variant only, never on the source. */
  function Display(e: LoginError): (s: string)
    ensures s == AuthFailedMessage <==> e.AuthError?
    ensures s == UnexpectedMessage <==> e.UnexpectedError?
  {
    match e
    case AuthError(_) => AuthFailedMessage
    case UnexpectedError(_) => UnexpectedMessage
  }

  /** Collapse a validation error into the login taxonomy, keeping it as the source. */
  function Classify(e: Authentication.AuthError): (r: LoginError)
    ensures r.AuthError? <==> e.InvalidCredentials?
    ensures r.UnexpectedError? <==> e.UnexpectedError?
    ensures r.source == FromAuth(e)
  {
    match e
    case InvalidCredentials(_) => AuthError(FromAuth(e))
    case UnexpectedError(_) => UnexpectedError(FromAuth(e))
  }

  /** Redirect to the login page with the error's text as a flash message. */
  function LoginRedirect(e: LoginError): (r: Traced<InternalError>)
    ensures r.value.error == e
    ensures r.value.response.status == SeeOther && r.value.response.location == LoginPath
    ensures Flashes(r.effects) == [Display(e)]
    ensures SessionCalls(r.effects) == []
  {
    Traced(InternalError(e, SeeOtherTo(LoginPath)), [FlashError(Display(e))])
  }

  /**
   The handler. `validation` is what `validate_credentials` returned and
   `bind` is what `insert_user_id` would return if it is called.
   */
  function Login(validation: Authentication.Validation, bind: Authentication.BindOutcome): (r: Traced<HandlerResult>)
    // every path answers 303, to the dashboard exactly on full success and to /login otherwise
    ensures r.value.Response().status == SeeOther
    ensures r.value.Ok? <==> validation.Validated? && bind.Bound?
    ensures r.value.Response().location == DashboardPath <==> r.value.Ok?
    ensures r.value.Response().location == LoginPath <==> r.value.Err?
    // every error queues exactly one flash, carrying the error's display text; success queues none
    ensures r.value.Err? ==> Flashes(r.effects) == [Display(r.value.failure.error)]
    ensures r.value.Ok? ==> Flashes(r.effects) == []
    // the session is touched only after a successful validation: renew, then bind that user id
    ensures validation.Rejected? ==> SessionCalls(r.effects) == []
    ensures validation.Validated? ==> SessionCalls(r.effects) == [Renew, InsertUserId(validation.userId)]
    ensures RenewsBeforeBind(r.effects)
    ensures forall u :: InsertUserId(u) in r.effects ==> validation == Authentication.Validated(u)
    // the internal cause is kept inside the error
    ensures r.value.Err? && validation.Rejected? ==> r.value.failure.error.source == FromAuth(validation.error)
    ensures validation.Rejected? ==> r.value.Err? && r.value.failure.error == Classify(validation.error)
    ensures validation.Validated? ==> |r.effects| >= 2 && r.effects[..2] == [Renew, InsertUserId(validation.userId)]
    ensures r.value.Err? && validation.Validated? ==>
              r.value.failure.error == UnexpectedError(FromSession(bind.cause))
  {
    match validation
    case Validated(userId) =>
      var session := [Renew, InsertUserId(userId)];
      assert session[1].InsertUserId? && session[0] == Renew;
      (match bind
       case Bound =>
         Traced(Ok(SeeOtherTo(DashboardPath)), session)
       case BindFailed(cause) =>
         var redirect := LoginRedirect(UnexpectedError(FromSession(cause)));
         FlashesAppend(session, redirect.effects);
         SessionCallsAppend(session, redirect.effects);
         Traced(Err(redirect.value), session + redirect.effects))
    case Rejected(e) =>
      var redirect := LoginRedirect(Classify(e));
      Traced(Err(redirect.value), redirect.effects)
  }
}
