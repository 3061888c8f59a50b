/**
 The observable side effects of the login handler, recorded as an ordered
 trace of calls into the session store and the flash-message store. The trace
 says which calls were made and in which order; it deliberately says nothing
 about what those stores do with the calls.
 */
module Effects {
  import Authentication

  /** One call the handler makes on a collaborator. */
  datatype Effect =
    | Renew                    // TypedSession::renew: rotate the session identifier
    | InsertUserId(user: Authentication.Uuid) // TypedSession::insert_user_id: bind the user id to the session
    | FlashError(text: string) // FlashMessage::error(text).send(): queue a one-time error notice
  {
    /** True for the calls that reach the session store. */
    predicate IsSessionCall() {
      Renew? || InsertUserId?
    }
  }

  /** A value together with the effects performed while computing it. */
  datatype Traced<T> = Traced(value: T, effects: seq<Effect>)

  /** The texts of the flash errors queued by `t`, in the order they were queued. */
  function Flashes(t: seq<Effect>): (msgs: seq<string>)
    ensures |msgs| <= |t|
    ensures forall m :: m in msgs <==> FlashError(m) in t
  {
    if t == [] then []
    else (if t[0].FlashError? then [t[0].text] else []) + Flashes(t[1..])
  }

  /** The calls of `t` that reach the session store, in order. */
  function SessionCalls(t: seq<Effect>): (calls: seq<Effect>)
    ensures |calls| <= |t|
    ensures forall e :: e in calls <==> e in t && e.IsSessionCall()
  {
    if t == [] then []
    else (if t[0].IsSessionCall() then [t[0]] else []) + SessionCalls(t[1..])
  }

  /** Every user-id binding in `t` comes after a session renewal in `t`. */
  predicate RenewsBeforeBind(t: seq<Effect>) {
    forall i :: 0 <= i < |t| && t[i].InsertUserId? ==> exists j :: 0 <= j < i && t[j] == Renew
  }

  /** Flashes distribute over the concatenation of two traces. */
  lemma {:induction false} FlashesAppend(a: seq<Effect>, b: seq<Effect>)
    ensures Flashes(a + b) == Flashes(a) + Flashes(b)
  {
    if a == [] {
      assert a + b == b;
    } else {
      assert (a + b)[1..] == a[1..] + b;
      FlashesAppend(a[1..], b);
    }
  }

  /** Session calls distribute over the concatenation of two traces. */
  lemma {:induction false} SessionCallsAppend(a: seq<Effect>, b: seq<Effect>)
    ensures SessionCalls(a + b) == SessionCalls(a) + SessionCalls(b)
  {
    if a == [] {
      assert a + b == b;
    } else {
      assert (a + b)[1..] == a[1..] + b;
      SessionCallsAppend(a[1..], b);
    }
  }

  /** Multiplicity: each text is queued exactly as many times as the trace sends it. */
  lemma {:induction false} FlashesCount(t: seq<Effect>, m: string)
    ensures multiset(Flashes(t))[m] == multiset(t)[FlashError(m)]
  {
    if t != [] {
      assert t == [t[0]] + t[1..];
      FlashesCount(t[1..], m);
    }
  }

  /** Multiplicity: each session call is kept exactly as often as the trace makes it, and nothing else is kept. */
  lemma {:induction false} SessionCallsCount(t: seq<Effect>, e: Effect)
    ensures multiset(SessionCalls(t))[e] == if e.IsSessionCall() then multiset(t)[e] else 0
  {
    if t != [] {
      assert t == [t[0]] + t[1..];
      SessionCallsCount(t[1..], e);
    }
  }

  /** Queue order: every prefix of a trace queues a prefix of its flash texts. */
  lemma FlashesOfPrefix(t: seq<Effect>, k: nat)
    requires k <= |t|
    ensures Flashes(t[..k]) <= Flashes(t)
  {
    assert t == t[..k] + t[k..];
    FlashesAppend(t[..k], t[k..]);
  }

  /** Call order: every prefix of a trace makes a prefix of its session calls. */
  lemma SessionCallsOfPrefix(t: seq<Effect>, k: nat)
    requires k <= |t|
    ensures SessionCalls(t[..k]) <= SessionCalls(t)
  {
    assert t == t[..k] + t[k..];
    SessionCallsAppend(t[..k], t[k..]);
  }
}
