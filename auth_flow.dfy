/** One dispatch of a slice action, followed through: the reducer applies
    it, the handler registered for its type yields its effects, and every
    slice action that handler puts is in turn reduced and handled.  The
    outcomes of the external calls are given by an `Environment`. */
module AuthFlow {
  import opened AuthSlice
  import opened AuthHistory
  import opened AuthSagas

  /** What the login endpoint and the token-validation endpoint return. */
  datatype Environment = Environment(login: Outcome<UserRecord>, validation: Outcome<()>)

  /** The handler registered for each action type.  Only the handler of
      LOGIN_ATTEMPT, which always puts exactly one action, and that of
      LOGIN_RESTORED put slice actions, and what they put is LOGIN_SUCCESS,
      LOGIN_FAILED or LOGOUT. */
  function Handler(a: Action, env: Environment): (effects: seq<Effect>)
    ensures forall b :: b in DispatchedActions(effects) ==> b.LoginSuccess? || b.LoginFailed? || b.Logout?
    ensures a.LoginAttempt? ==> |DispatchedActions(effects)| == 1
    ensures !a.LoginAttempt? && !a.LoginRestored? ==> DispatchedActions(effects) == []
  {
    match a
    case LoginAttempt(credentials) =>
      LoginAttemptResolvesOnce(credentials, env.login);
      OnLoginAttempt(credentials, env.login)
    case LoginSuccess(user) =>
      LoginSuccessIsQuiet(user);
      OnLoginSuccess(user)
    case LoginFailed(failure) =>
      LoginFailedIsQuiet(failure);
      OnLoginFailed(failure)
    case Logout =>
      LogoutIsQuiet();
      OnLogout()
    case LoginRestored(user) =>
      RestoredLogsOutIffRejected(user, env.validation);
      OnLoginRestored(user, env.validation)
  }

  /** The actions that a handler puts have handlers that put no slice
      action, so following puts one level deep follows them all. */
  lemma FollowUpsAreQuiet(a: Action, env: Environment, b: Action)
    requires b in DispatchedActions(Handler(a, env))
    ensures DispatchedActions(Handler(b, env)) == []
    ensures b.LoginSuccess? || b.LoginFailed? || b.Logout?
  {
  }

  /** The effects of a list of effects, each slice action it puts followed
      at once by the effects of that action's handler.  Every effect of the
      list and of the follow-up handlers is kept; when the follow-ups put no
      slice action, the slice actions put are those of the list itself. */
  function Expand(effects: seq<Effect>, env: Environment): (r: seq<Effect>)
    ensures forall e :: e in effects ==> e in r
    ensures forall b, e :: Put(Auth(b)) in effects && e in Handler(b, env) ==> e in r
    ensures (forall b :: b in DispatchedActions(effects) ==> DispatchedActions(Handler(b, env)) == [])
      ==> DispatchedActions(r) == DispatchedActions(effects)
  {
    if effects == [] then []
    else
      var follow := if PutsAuth(effects[0]) then Handler(effects[0].dispatched.action, env) else [];
      var rest := Expand(effects[1..], env);
      DispatchedActionsAppend([effects[0]] + follow, rest);
      DispatchedActionsAppend([effects[0]], follow);
      DispatchedActionsAppend([effects[0]], effects[1..]);
      assert [effects[0]] + effects[1..] == effects;
      assert forall e :: e in effects ==> e == effects[0] || e in effects[1..];
      [effects[0]] + follow + rest
  }

  /** All effects that dispatching `a` leads to: its handler's effects, and
      the follow-up handlers' effects; the slice actions put are exactly
      those its own handler puts. */
  function Cascade(a: Action, env: Environment): (r: seq<Effect>)
    ensures forall e :: e in Handler(a, env) ==> e in r
    ensures DispatchedActions(r) == DispatchedActions(Handler(a, env))
  {
    Expand(Handler(a, env), env)
  }

  /** The first one or two steps of a trace. */
  lemma RunShort(s: State, t: seq<Action>)
    ensures |t| == 1 ==> Run(s, t) == Reduce(s, t[0])
    ensures |t| == 2 ==> Run(s, t) == Reduce(Reduce(s, t[0]), t[1])
  {
    if |t| == 2 {
      assert t[..1][..0] == [];
      assert t[..1][0] == t[0];
    } else if |t| == 1 {
      assert t[..0] == [];
    }
  }

  /** The slice after dispatching `a` and every action its handlers put.  A
      dispatch keeps the invariant and removes no record; a login attempt
      is always over once its dispatch settles; any action other than
      LOGIN_ATTEMPT and LOGIN_RESTORED acts through its reducer case alone. */
  function Settle(s: State, a: Action, env: Environment): (r: State)
    ensures Valid(s) ==> Valid(r)
    ensures s.byId.Keys <= r.byId.Keys
    ensures a.LoginAttempt? ==> !r.loggingIn
    ensures !a.LoginAttempt? && !a.LoginRestored? ==> r == Reduce(s, a)
  {
    var t := [a] + DispatchedActions(Cascade(a, env));
    RunShort(s, t);
    assert a.LoginAttempt? ==> t[1] in DispatchedActions(Handler(a, env));
    Run(s, t)
  }

  /** A login that the server accepts: the returned user is signed in with
      its record stored and no login in flight; the token is set, the
      success message shown and the record stored, in that order. */
  lemma LoginAccepted(s: State, credentials: Credentials, user: UserRecord, validation: Outcome<()>)
    ensures var env := Environment(Resolved(user), validation);
      && Cascade(LoginAttempt(credentials), env) == [
           Call(ApiPost(LoginPath, credentials)),
           Put(Auth(LoginSuccess(user))),
           Call(UpdateToken(user.token)),
           Put(ShowMessage(LoggedInMessage)),
           Call(SetItem(StorageKey, user))]
      && Settle(s, LoginAttempt(credentials), env).currentUser == SignedIn(user.id)
      && !Settle(s, LoginAttempt(credentials), env).loggingIn
      && Settle(s, LoginAttempt(credentials), env).byId == s.byId[user.id := user]
      && Settle(s, LoginAttempt(credentials), env).auth == s.auth
  {
    var env := Environment(Resolved(user), validation);
    var handled := OnLoginAttempt(credentials, env.login);
    assert handled[1..][1..] == [];
    var effects := Cascade(LoginAttempt(credentials), env);
    assert Expand(handled[1..], env) == [handled[1]] + OnLoginSuccess(user) + Expand([], env);
    assert effects == [handled[0]] + [handled[1]] + OnLoginSuccess(user);
    DispatchedActionsAppend([handled[0]] + [handled[1]], OnLoginSuccess(user));
    DispatchedActionsAppend([handled[0]], [handled[1]]);
    LoginSuccessIsQuiet(user);
    assert DispatchedActions(effects) == [LoginSuccess(user)];
    assert [LoginAttempt(credentials)] + DispatchedActions(effects) == [LoginAttempt(credentials), LoginSuccess(user)];
    RunShort(s, [LoginAttempt(credentials), LoginSuccess(user)]);
    assert Settle(s, LoginAttempt(credentials), env) == ApplyLoginSuccess(ApplyLoginAttempt(s, credentials), user);
  }

  /** A login that the server rejects: logged out, no login in flight,
      records untouched; only the error message is shown, and neither the
      token nor the storage is written. */
  lemma LoginRejected(s: State, credentials: Credentials, message: string, validation: Outcome<()>)
    ensures var env := Environment(Rejected(message), validation);
      && Cascade(LoginAttempt(credentials), env) == [
           Call(ApiPost(LoginPath, credentials)),
           Put(Auth(LoginFailed(Failure(message)))),
           Put(ShowMessage(LoginFailedMessage))]
      && Settle(s, LoginAttempt(credentials), env).currentUser == LoggedOut
      && !Settle(s, LoginAttempt(credentials), env).loggingIn
      && Settle(s, LoginAttempt(credentials), env).byId == s.byId
      && Settle(s, LoginAttempt(credentials), env).auth == Null
  {
    var env := Environment(Rejected(message), validation);
    var handled := OnLoginAttempt(credentials, env.login);
    assert handled[1..][1..] == [];
    var effects := Cascade(LoginAttempt(credentials), env);
    var failure := Failure(message);
    assert Expand(handled[1..], env) == [handled[1]] + OnLoginFailed(failure) + Expand([], env);
    assert effects == [handled[0]] + [handled[1]] + OnLoginFailed(failure);
    DispatchedActionsAppend([handled[0]] + [handled[1]], OnLoginFailed(failure));
    DispatchedActionsAppend([handled[0]], [handled[1]]);
    LoginFailedIsQuiet(failure);
    assert DispatchedActions(effects) == [LoginFailed(failure)];
    assert [LoginAttempt(credentials)] + DispatchedActions(effects) == [LoginAttempt(credentials), LoginFailed(failure)];
    RunShort(s, [LoginAttempt(credentials), LoginFailed(failure)]);
  }

  /** A restored session whose token the server rejects: the user is logged
      out again, the restored record stays in the slice, and the LOGOUT
      handler removes the stored record. */
  lemma RestoreRejected(s: State, user: UserRecord, login: Outcome<UserRecord>, message: string)
    ensures var env := Environment(login, Rejected(message));
      && Cascade(LoginRestored(user), env) == [
           Call(UpdateToken(user.token)),
           Call(ApiGet(ValidateTokenPath)),
           Put(Auth(Logout)),
           Call(RemoveItem(StorageKey))]
      && Settle(s, LoginRestored(user), env).currentUser == LoggedOut
      && Settle(s, LoginRestored(user), env).loggingIn == s.loggingIn
      && Settle(s, LoginRestored(user), env).byId == s.byId[user.id := user]
      && Settle(s, LoginRestored(user), env).auth == s.auth
  {
    var env := Environment(login, Rejected(message));
    RejectedRestoreCascade(user, env);
    RestoredLogsOutIffRejected(user, env.validation);
    assert DispatchedActions(Cascade(LoginRestored(user), env)) == [Logout];
    assert [LoginRestored(user)] + DispatchedActions(Cascade(LoginRestored(user), env)) == [LoginRestored(user), Logout];
    RunShort(s, [LoginRestored(user), Logout]);
  }

  /** The effects of a restore whose validation throws, LOGOUT's included. */
  lemma RejectedRestoreCascade(user: UserRecord, env: Environment)
    requires env.validation.Rejected?
    ensures Cascade(LoginRestored(user), env) == [
      Call(UpdateToken(user.token)), Call(ApiGet(ValidateTokenPath)), Put(Auth(Logout)), Call(RemoveItem(StorageKey))]
  {
    var handled := OnLoginRestored(user, env.validation);
    assert handled == [handled[0], handled[1], Put(Auth(Logout))];
    assert Expand(handled[2..], env) == [Put(Auth(Logout))] + OnLogout() by {
      assert handled[2..][1..] == [];
    }
    assert handled[1..][1..] == handled[2..];
    assert Expand(handled[1..], env) == [handled[1]] + Expand(handled[2..], env);
  }

  /** A restored session whose token the server accepts: the restored user
      is signed in, and nothing but the token update and the validation
      request happens. */
  lemma RestoreAccepted(s: State, user: UserRecord, login: Outcome<UserRecord>)
    ensures var env := Environment(login, Resolved(()));
      && Cascade(LoginRestored(user), env) == [Call(UpdateToken(user.token)), Call(ApiGet(ValidateTokenPath))]
      && Settle(s, LoginRestored(user), env).currentUser == SignedIn(user.id)
      && Settle(s, LoginRestored(user), env).loggingIn == s.loggingIn
      && Settle(s, LoginRestored(user), env).byId == s.byId[user.id := user]
      && Settle(s, LoginRestored(user), env).auth == s.auth
  {
    var env := Environment(login, Resolved(()));
    var handled := OnLoginRestored(user, env.validation);
    assert handled[1..][1..] == [];
    RestoredLogsOutIffRejected(user, env.validation);
    var effects := Cascade(LoginRestored(user), env);
    assert Expand(handled[1..], env) == [handled[1]] + Expand([], env);
    assert effects == handled;
    assert [LoginRestored(user)] + DispatchedActions(effects) == [LoginRestored(user)];
    assert [LoginRestored(user)][..0] == [];
    assert Run(s, [LoginRestored(user)]) == Reduce(Run(s, []), LoginRestored(user));
    assert Settle(s, LoginRestored(user), env) == ApplyLoginRestored(s, user);
  }
}
