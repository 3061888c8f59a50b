/**
 Properties of the login handler that relate several calls, or that pin its
 behaviour down to a reference decision table written with the literal
 statuses, paths and messages.
 */
module LoginProperties {
  import opened Effects
  import Authentication
  import opened LoginPost

  /** The response a client would see, with the flash texts it would be shown next. */
  datatype Observation = Observation(status: nat, location: string, flashes: seq<string>)

  function Observe(r: Traced<HandlerResult>): Observation {
    Observation(r.value.Response().status, r.value.Response().location, Flashes(r.effects))
  }

  /**
   The handler's full decision table: for each of the four input shapes, the
   exact result and the exact, complete effect trace.
   */
  lemma LoginDecisionTable(v: Authentication.Validation, b: Authentication.BindOutcome)
    ensures v.Validated? && b.Bound? ==>
              Login(v, b) == Traced(Ok(HttpResponse(303, "/admin/dashboard")), [Renew, InsertUserId(v.userId)])
    ensures v.Validated? && b.BindFailed? ==>
              Login(v, b) == Traced(Err(InternalError(UnexpectedError(FromSession(b.cause)), HttpResponse(303, "/login"))),
                                    [Renew, InsertUserId(v.userId), FlashError("Something went wrong")])
    ensures v.Rejected? && v.error.InvalidCredentials? ==>
              Login(v, b) == Traced(Err(InternalError(AuthError(FromAuth(v.error)), HttpResponse(303, "/login"))),
                                    [FlashError("Authentication failed")])
    ensures v.Rejected? && v.error.UnexpectedError? ==>
              Login(v, b) == Traced(Err(InternalError(UnexpectedError(FromAuth(v.error)), HttpResponse(303, "/login"))),
                                    [FlashError("Something went wrong")])
  {
  }

  /** Only two messages can ever be shown, and they tell the two error variants apart. */
  lemma DisplayDistinguishesKinds(e1: LoginError, e2: LoginError)
    ensures Display(e1) in {"Authentication failed", "Something went wrong"}
    ensures Display(e1) == Display(e2) <==> e1.AuthError? == e2.AuthError?
  {
  }

  /** Invalid credentials read "Authentication failed"; every other validation error reads "Something went wrong". */
  lemma ClassifyDisplay(e: Authentication.AuthError)
    ensures Display(Classify(e)) == "Authentication failed" <==> e.InvalidCredentials?
    ensures Display(Classify(e)) == "Something went wrong" <==> e.UnexpectedError?
  {
  }

  /**
   A session-store failure after a successful validation degrades to the same
   redirect `login_redirect` builds for an unexpected error, after the renew
   and the attempted bind; it never reaches the dashboard.
   */
  lemma BindFailureDegradesToLoginRedirect(u: Authentication.Uuid, cause: Authentication.Cause)
    ensures var r := Login(Authentication.Validated(u), Authentication.BindFailed(cause));
            var redirect := LoginRedirect(UnexpectedError(FromSession(cause)));
            && r.value == Err(redirect.value)
            && r.effects == [Renew, InsertUserId(u)] + redirect.effects
            && Observe(r) == Observation(303, "/login", ["Something went wrong"])
  {
  }

  /**
   When validation fails the session is never consulted: what `insert_user_id`
   would have returned makes no difference, and the outcome is the login
   redirect for the classified error.
   */
  lemma RejectionIgnoresBind(e: Authentication.AuthError, b1: Authentication.BindOutcome, b2: Authentication.BindOutcome)
    ensures Login(Authentication.Rejected(e), b1) == Login(Authentication.Rejected(e), b2)
    ensures var redirect := LoginRedirect(Classify(e));
            Login(Authentication.Rejected(e), b1) == Traced(Err(redirect.value), redirect.effects)
  {
  }

  /** Two inputs that differ only in their internal causes. */
  predicate SameShape(v1: Authentication.Validation, b1: Authentication.BindOutcome,
                      v2: Authentication.Validation, b2: Authentication.BindOutcome)
  {
    && v1.Validated? == v2.Validated?
    && (v1.Validated? ==> v1.userId == v2.userId && b1.Bound? == b2.Bound?)
    && (v1.Rejected? ==> v1.error.InvalidCredentials? == v2.error.InvalidCredentials?)
  }

  /**
   No internal cause crosses the HTTP boundary: inputs that differ only in
   their causes produce the same response and the same effects, flash texts
   included.
   */
  lemma CauseNeverReachesClient(v1: Authentication.Validation, b1: Authentication.BindOutcome,
                                v2: Authentication.Validation, b2: Authentication.BindOutcome)
    requires SameShape(v1, b1, v2, b2)
    ensures Login(v1, b1).value.Response() == Login(v2, b2).value.Response()
    ensures Login(v1, b1).effects == Login(v2, b2).effects
  {
  }

  /**
   The scenario of the login integration test: an unknown user is rejected
   with invalid credentials, and the client is sent back to /login with a
   303 and the "Authentication failed" notice.
   */
  lemma UnknownUserIsSentBackToLogin(cause: Authentication.Cause, b: Authentication.BindOutcome)
    ensures Observe(Login(Authentication.Rejected(Authentication.InvalidCredentials(cause)), b))
            == Observation(303, "/login", ["Authentication failed"])
  {
  }
}
