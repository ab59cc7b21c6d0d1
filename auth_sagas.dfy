/** The effect handlers of the authentication slice (src/ducks/auth.js).

    Each handler is a generator that yields effect descriptors: `call` of an
    external function, or `put` of an action to the store.  A handler here is
    the list of descriptors it yields, in order, given what its external
    call returned; the calls themselves are not performed. */
module AuthSagas {
  import opened AuthSlice

  datatype Option<T> = None | Some(value: T)

  /** How an awaited external call ended: it resolved with a value, or it
      threw an error carrying a message. */
  datatype Outcome<T> = Resolved(data: T) | Rejected(message: string)

  /** The notification that SHOW_MESSAGE enqueues. */
  datatype Message = Message(status: string, title: string, text: Option<string>)

  /** The external functions a handler calls. */
  datatype Callee =
    | ApiPost(path: string, body: Credentials)
    | ApiGet(path: string)
    | UpdateToken(token: string)
    | SetItem(key: string, value: UserRecord)
    | RemoveItem(key: string)

  /** What a handler puts to the store. */
  datatype Dispatched = Auth(action: Action) | ShowMessage(message: Message)

  datatype Effect = Call(callee: Callee) | Put(dispatched: Dispatched)

  const LoginPath := "/auth/login"
  const ValidateTokenPath := "/auth/validateToken"
  /** The storage key under which the signed-in user's record is kept. */
  const StorageKey := "currentUser"

  const LoggedInMessage := Message("success", "Logged in", None)
  const LoginFailedMessage := Message("error", "Login Failed", Some("Check your email/password and try again"))

  /** Is this effect a put of one of the slice's own actions? */
  predicate PutsAuth(e: Effect) {
    e.Put? && e.dispatched.Auth?
  }

  /** The slice actions that a list of effects puts, in order. */
  function DispatchedActions(effects: seq<Effect>): (actions: seq<Action>)
    ensures |actions| <= |effects|
    ensures forall a :: a in actions <==> Put(Auth(a)) in effects
  {
    if effects == [] then []
    else
      var rest := DispatchedActions(effects[1..]);
      assert forall e :: e in effects <==> e == effects[0] || e in effects[1..];
      if PutsAuth(effects[0]) then [effects[0].dispatched.action] + rest else rest
  }

  /** The actions put by two lists in turn are those of each, in turn. */
  lemma {:induction false} DispatchedActionsAppend(e: seq<Effect>, f: seq<Effect>)
    ensures DispatchedActions(e + f) == DispatchedActions(e) + DispatchedActions(f)
    decreases |e|
  {
    if e == [] {
      assert e + f == f;
    } else {
      assert (e + f)[0] == e[0] && (e + f)[1..] == e[1..] + f;
      DispatchedActionsAppend(e[1..], f);
    }
  }

  /** LOGIN_ATTEMPT: post the credentials to the login endpoint, then put
      exactly one of LOGIN_SUCCESS, with the response data, or LOGIN_FAILED,
      with the error's message. */
  function OnLoginAttempt(payload: Credentials, login: Outcome<UserRecord>): (effects: seq<Effect>)
    ensures |effects| == 2
    ensures effects[0] == Call(ApiPost(LoginPath, Credentials(payload.email, payload.password)))
    ensures PutsAuth(effects[1]) && (effects[1].dispatched.action.LoginSuccess? <==> login.Resolved?)
    ensures login.Resolved? ==> effects[1] == Put(Auth(LoginSuccess(login.data)))
    ensures login.Rejected? ==> effects[1] == Put(Auth(LoginFailed(Failure(login.message))))
  {
    var request := Call(ApiPost(LoginPath, Credentials(payload.email, payload.password)));
    match login
    case Resolved(data) => [request, Put(Auth(LoginSuccess(data)))]
    case Rejected(message) => [request, Put(Auth(LoginFailed(Failure(message))))]
  }

  /** LOGIN_SUCCESS: set the request token, show the success message, then
      store the record under the storage key. */
  function OnLoginSuccess(payload: UserRecord): (effects: seq<Effect>) {
    [Call(UpdateToken(payload.token)), Put(ShowMessage(LoggedInMessage)), Call(SetItem(StorageKey, payload))]
  }

  /** LOGIN_FAILED: show the fixed error message; the failure's own message
      is not shown. */
  function OnLoginFailed(payload: Failure): (effects: seq<Effect>) {
    [Put(ShowMessage(LoginFailedMessage))]
  }

  /** LOGOUT: remove the stored record. */
  function OnLogout(): (effects: seq<Effect>) {
    [Call(RemoveItem(StorageKey))]
  }

  /** LOGIN_RESTORED: set the request token, ask the server to validate it,
      and put LOGOUT if and only if the validation fails. */
  function OnLoginRestored(payload: UserRecord, validation: Outcome<()>): (effects: seq<Effect>)
    ensures |effects| == if validation.Rejected? then 3 else 2
    ensures effects[..2] == [Call(UpdateToken(payload.token)), Call(ApiGet(ValidateTokenPath))]
    ensures Put(Auth(Logout)) in effects <==> validation.Rejected?
  {
    var prefix := [Call(UpdateToken(payload.token)), Call(ApiGet(ValidateTokenPath))];
    if validation.Rejected? then prefix + [Put(Auth(Logout))] else prefix
  }

  /** The login handler puts exactly one slice action, and it ends the
      attempt. */
  lemma LoginAttemptResolvesOnce(payload: Credentials, login: Outcome<UserRecord>)
    ensures |DispatchedActions(OnLoginAttempt(payload, login))| == 1
    ensures var a := DispatchedActions(OnLoginAttempt(payload, login))[0];
      (a.LoginSuccess? || a.LoginFailed?) && (a.LoginSuccess? <==> login.Resolved?)
  {
    var effects := OnLoginAttempt(payload, login);
    assert effects[1..][1..] == [];
    assert PutsAuth(effects[1]) && !PutsAuth(effects[0]);
  }

  /** The LOGIN_SUCCESS handler puts no slice action. */
  lemma LoginSuccessIsQuiet(payload: UserRecord)
    ensures DispatchedActions(OnLoginSuccess(payload)) == []
  {
    var success := OnLoginSuccess(payload);
    assert DispatchedActions(success[2..]) == [] by {
      assert success[2..][1..] == [];
    }
    assert success[1..][1..] == success[2..];
  }

  /** The LOGIN_FAILED handler puts no slice action. */
  lemma LoginFailedIsQuiet(payload: Failure)
    ensures DispatchedActions(OnLoginFailed(payload)) == []
  {
    assert OnLoginFailed(payload)[1..] == [];
  }

  /** The LOGOUT handler puts no slice action. */
  lemma LogoutIsQuiet()
    ensures DispatchedActions(OnLogout()) == []
  {
    assert OnLogout()[1..] == [];
  }

  /** The restore handler puts LOGOUT, and nothing else, exactly when the
      token fails validation. */
  lemma RestoredLogsOutIffRejected(payload: UserRecord, validation: Outcome<()>)
    ensures DispatchedActions(OnLoginRestored(payload, validation)) == if validation.Rejected? then [Logout] else []
  {
    var effects := OnLoginRestored(payload, validation);
    assert effects[1..][1..] == effects[2..];
    if validation.Rejected? {
      assert effects[2..][1..] == [];
    } else {
      assert effects[2..] == [];
    }
  }

  /** The token the success handler sets for requests is the token of the
      record it stores; it is set first, and the record is stored after the
      effect at position 1, the notification. */
  lemma LoginSuccessStoresWhatItSets(payload: UserRecord)
    ensures var e := OnLoginSuccess(payload);
      && Call(UpdateToken(payload.token)) in e
      && Call(SetItem(StorageKey, payload)) in e
      && forall i, j ::
           (0 <= i < |e| && 0 <= j < |e| && e[i].Call? && e[i].callee.UpdateToken? && e[j].Call? && e[j].callee.SetItem?)
           ==> i < 1 < j && e[i].callee.token == e[j].callee.value.token
  {
  }

  /** The success handler shows exactly one notification, "Logged in",
      between the token update and the storage write. */
  lemma LoginSuccessNotifiesOnce(payload: UserRecord)
    ensures var e := OnLoginSuccess(payload);
      forall i :: 0 <= i < |e| && e[i].Put? ==> i == 1 && e[i].dispatched == ShowMessage(LoggedInMessage)
    ensures var e := OnLoginSuccess(payload);
      exists k :: 0 <= k < |e| && e[k] == Put(ShowMessage(LoggedInMessage))
  {
    assert OnLoginSuccess(payload)[1] == Put(ShowMessage(LoggedInMessage));
  }

  /** The failure handler does not look at its payload: every failure shows
      the same "Login Failed" notification, and nothing else happens. */
  lemma LoginFailedIgnoresPayload(f: Failure, g: Failure)
    ensures OnLoginFailed(f) == OnLoginFailed(g)
    ensures forall e :: e in OnLoginFailed(f) ==> e == Put(ShowMessage(LoginFailedMessage))
    ensures |OnLoginFailed(f)| == 1
  {
  }

  /** The logout handler removes, and only removes, the key that the
      success handler writes the record under. */
  lemma LogoutRemovesStoredKey(payload: UserRecord)
    ensures |OnLogout()| == 1
    ensures forall e :: e in OnLogout() ==>
      (e.Call? && e.callee.RemoveItem? && Call(SetItem(e.callee.key, payload)) in OnLoginSuccess(payload))
  {
  }
}
