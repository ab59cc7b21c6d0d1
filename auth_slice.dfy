/** The authentication slice of the application store (src/ducks/auth.js).

    The slice holds who is signed in, whether a login is in flight, and the
    last record received for every user.  Its reducer has five cases; each is
    given here twice: as a pure transition on a `State` value, which the
    lemmas about traces of actions use, and as a method of the `Slice` object,
    which updates the fields in place as the reducer's draft does. */
module AuthSlice {

  type UserId = string

  /** The user record the server returns on login or that is restored from
      storage: at least an id and a token; its other properties are kept in
      `profile`, as strings. */
  datatype UserRecord = UserRecord(id: UserId, token: string, profile: map<string, string>)

  /** Payload of LOGIN_ATTEMPT. */
  datatype Credentials = Credentials(email: string, password: string)

  /** Payload of LOGIN_FAILED. */
  datatype Failure = Failure(message: string)

  /** `currentUser`: `false` (not yet known), `null` (logged out) or an id. */
  datatype CurrentUser = Unknown | LoggedOut | SignedIn(id: UserId)

  /** The `auth` property, which the initial state does not have and
      LOGIN_FAILED sets to `null`. */
  datatype AuthField = Absent | Null

  /** The five actions of the slice, with their payloads. */
  datatype Action =
    | LoginAttempt(credentials: Credentials)
    | LoginSuccess(user: UserRecord)
    | LoginFailed(failure: Failure)
    | Logout
    | LoginRestored(user: UserRecord)

  /** Does this action carry a user record that the reducer stores? */
  predicate Stores(a: Action) {
    a.LoginSuccess? || a.LoginRestored?
  }

  datatype State = State(
    currentUser: CurrentUser,
    loggingIn: bool,
    byId: map<UserId, UserRecord>,
    auth: AuthField)

  /** When somebody is signed in, their record is known. */
  predicate SignedInIsKnown(s: State) {
    s.currentUser.SignedIn? ==> s.currentUser.id in s.byId
  }

  /** Every record is filed under its own id. */
  predicate WellKeyed(s: State) {
    forall k :: k in s.byId ==> s.byId[k].id == k
  }

  /** The invariant every reachable state of the slice satisfies. */
  predicate Valid(s: State) {
    SignedInIsKnown(s) && WellKeyed(s)
  }

  /** The state the store starts with. */
  function Initial(): (s: State)
    ensures s.currentUser == Unknown && !s.loggingIn
    ensures s.byId == map[] && s.auth == Absent
    ensures Valid(s)
  {
    State(Unknown, false, map[], Absent)
  }

  /** LOGIN_ATTEMPT: a login is now in flight; nothing else changes. */
  function ApplyLoginAttempt(s: State, credentials: Credentials): (r: State)
    ensures r.loggingIn
    ensures r.currentUser == s.currentUser && r.byId == s.byId && r.auth == s.auth
    ensures Valid(s) ==> Valid(r)
  {
    s.(loggingIn := true)
  }

  /** Stores `user` under its id, keeping every other entry. */
  function Store(byId: map<UserId, UserRecord>, user: UserRecord): (m: map<UserId, UserRecord>)
    ensures m.Keys == byId.Keys + {user.id}
    ensures m[user.id] == user
    ensures forall k :: k in byId && k != user.id ==> m[k] == byId[k]
  {
    byId[user.id := user]
  }

  /** LOGIN_SUCCESS: the payload's user is signed in, the login is over, and
      the payload is the user's record; every other record is untouched. */
  function ApplyLoginSuccess(s: State, user: UserRecord): (r: State)
    ensures r.currentUser == SignedIn(user.id) && !r.loggingIn && r.auth == s.auth
    ensures r.byId.Keys == s.byId.Keys + {user.id} && r.byId[user.id] == user
    ensures forall k :: k in s.byId && k != user.id ==> r.byId[k] == s.byId[k]
    ensures Valid(s) ==> Valid(r)
  {
    State(SignedIn(user.id), false, Store(s.byId, user), s.auth)
  }

  /** LOGIN_FAILED: logged out, no login in flight, `auth` is `null`,
      whatever the state before; the records are untouched.  The message in
      the payload is not stored. */
  function ApplyLoginFailed(s: State, failure: Failure): (r: State)
    ensures r.currentUser == LoggedOut && !r.loggingIn && r.auth == Null
    ensures r.byId == s.byId
    ensures Valid(s) ==> Valid(r)
  {
    State(LoggedOut, false, s.byId, Null)
  }

  /** LOGOUT: only `currentUser` changes, to logged out. */
  function ApplyLogout(s: State): (r: State)
    ensures r.currentUser == LoggedOut
    ensures r.loggingIn == s.loggingIn && r.byId == s.byId && r.auth == s.auth
    ensures Valid(s) ==> Valid(r)
  {
    s.(currentUser := LoggedOut)
  }

  /** LOGIN_RESTORED: as LOGIN_SUCCESS, except that `loggingIn` is left as
      it was. */
  function ApplyLoginRestored(s: State, user: UserRecord): (r: State)
    ensures r.currentUser == SignedIn(user.id) && r.loggingIn == s.loggingIn && r.auth == s.auth
    ensures r.byId.Keys == s.byId.Keys + {user.id} && r.byId[user.id] == user
    ensures forall k :: k in s.byId && k != user.id ==> r.byId[k] == s.byId[k]
    ensures Valid(s) ==> Valid(r)
  {
    State(SignedIn(user.id), s.loggingIn, Store(s.byId, user), s.auth)
  }

  /** The reducer: one case per action. */
  function Reduce(s: State, a: Action): (r: State)
    ensures Valid(s) ==> Valid(r)
    ensures s.byId.Keys <= r.byId.Keys
    ensures Stores(a) ==> r.byId.Keys == s.byId.Keys + {a.user.id} && r.byId[a.user.id] == a.user
    ensures !Stores(a) ==> r.byId == s.byId
    ensures forall k :: k in s.byId && !(Stores(a) && k == a.user.id) ==> r.byId[k] == s.byId[k]
  {
    match a
    case LoginAttempt(credentials) => ApplyLoginAttempt(s, credentials)
    case LoginSuccess(user) => ApplyLoginSuccess(s, user)
    case LoginFailed(failure) => ApplyLoginFailed(s, failure)
    case Logout => ApplyLogout(s)
    case LoginRestored(user) => ApplyLoginRestored(s, user)
  }

  /** LOGOUT twice is LOGOUT once. */
  lemma LogoutIdempotent(s: State)
    ensures ApplyLogout(ApplyLogout(s)) == ApplyLogout(s)
  {
  }

  /** LOGIN_FAILED forgets the state before it, except for the records. */
  lemma LoginFailedForgetsSession(s: State, t: State, f: Failure, g: Failure)
    requires s.byId == t.byId
    ensures ApplyLoginFailed(s, f) == ApplyLoginFailed(t, g)
  {
  }

  /** The slice object of the store, whose fields the reducer's cases assign
      in place. */
  class Slice {
    var currentUser: CurrentUser
    var loggingIn: bool
    var byId: map<UserId, UserRecord>
    var auth: AuthField

    /** The fields as a value. */
    function View(): (v: State)
      reads this
    {
      State(currentUser, loggingIn, byId, auth)
    }

    constructor ()
      ensures currentUser == Unknown && !loggingIn && byId == map[] && auth == Absent
      ensures View() == Initial()
    {
      currentUser := Unknown;
      loggingIn := false;
      byId := map[];
      auth := Absent;
    }

    method LoginAttempt(payload: Credentials)
      modifies this
      ensures loggingIn
      ensures currentUser == old(currentUser) && byId == old(byId) && auth == old(auth)
      ensures old(Valid(View())) ==> Valid(View())
    {
      loggingIn := true;
    }

    method LoginSuccess(payload: UserRecord)
      modifies this
      ensures currentUser == SignedIn(payload.id) && !loggingIn && auth == old(auth)
      ensures byId.Keys == old(byId).Keys + {payload.id} && byId[payload.id] == payload
      ensures forall k :: k in old(byId) && k != payload.id ==> byId[k] == old(byId)[k]
      ensures old(Valid(View())) ==> Valid(View())
    {
      currentUser := SignedIn(payload.id);
      loggingIn := false;
      byId := byId[payload.id := payload];
    }

    method LoginFailed(payload: Failure)
      modifies this
      ensures currentUser == LoggedOut && !loggingIn && auth == Null
      ensures byId == old(byId)
      ensures old(Valid(View())) ==> Valid(View())
    {
      currentUser := LoggedOut;
      loggingIn := false;
      auth := Null;
    }

    method Logout()
      modifies this
      ensures currentUser == LoggedOut
      ensures loggingIn == old(loggingIn) && byId == old(byId) && auth == old(auth)
      ensures old(Valid(View())) ==> Valid(View())
    {
      currentUser := LoggedOut;
    }

    method LoginRestored(payload: UserRecord)
      modifies this
      ensures currentUser == SignedIn(payload.id) && loggingIn == old(loggingIn) && auth == old(auth)
      ensures byId.Keys == old(byId).Keys + {payload.id} && byId[payload.id] == payload
      ensures forall k :: k in old(byId) && k != payload.id ==> byId[k] == old(byId)[k]
      ensures old(Valid(View())) ==> Valid(View())
    {
      currentUser := SignedIn(payload.id);
      byId := byId[payload.id := payload];
    }

    /** The reducer applied to the store's slice: the case named by the
        action's type runs on the fields. */
    method Dispatch(action: Action)
      modifies this
      ensures View() == Reduce(old(View()), action)
    {
      match action
      case LoginAttempt(credentials) => LoginAttempt(credentials);
      case LoginSuccess(user) => LoginSuccess(user);
      case LoginFailed(failure) => LoginFailed(failure);
      case Logout => Logout();
      case LoginRestored(user) => LoginRestored(user);
    }
  }
}
