# Authentication slice: a Dafny model

This project models the authentication part of a React/Redux starter
application (`src/ducks/auth.js`). It has two pieces.

- **The slice**: a Redux Toolkit slice named `auth`. Its state is
  `currentUser`, `loggingIn` and `byId`. Its reducer has five cases:
  `LOGIN_ATTEMPT`, `LOGIN_SUCCESS`, `LOGIN_FAILED`, `LOGOUT` and
  `LOGIN_RESTORED`.
- **The effect handlers**: five redux-saga generators. Each one yields
  `call` and `put` effect descriptors in response to one of those actions.

Files:

- `auth_slice.dfy` (module `AuthSlice`) holds the state and the reducer.
  - `currentUser` is a `CurrentUser`: `Unknown` for the initial `false`,
    `LoggedOut` for `null`, or `SignedIn(id)`.
  - `auth` is an `AuthField`. It is `Absent` at first. `LOGIN_FAILED` sets
    it to `Null`.
  - Each reducer case appears twice. It is a pure transition on a `State`
    value (`ApplyLoginSuccess`, …, combined in `Reduce`). It is also a
    method of the `Slice` class, which assigns the fields in place, as the
    reducer does to its draft. `Slice.Dispatch` is proved to equal `Reduce`.
  - The invariant `Valid` has two parts. A signed-in user's id is a key of
    `byId`. Every record is filed under its own id.
- `auth_history.dfy` (module `AuthHistory`) defines `Run`, which applies a
  sequence of actions in dispatch order, as the store does. It then proves
  what holds along every such trace:
  - the invariant is kept;
  - the keys of `byId` are exactly the starting keys plus the ids received,
    so no key is ever removed;
  - every record is the payload of the last `LOGIN_SUCCESS` or
    `LOGIN_RESTORED` of the trace with its id, or, when the trace stores
    nothing under that id, the starting record, untouched;
  - `loggingIn` is true exactly while a login attempt is unresolved;
  - `currentUser` follows the last action that sets it;
  - once the user is known, the slice never returns to "not yet known".
- `auth_sagas.dfy` (module `AuthSagas`) models each handler as a pure
  function. It takes the outcome of the handler's external call
  (`Resolved(data)` or `Rejected(message)`) and returns the list of effect
  descriptors the generator yields, in order.
- `auth_flow.dfy` (module `AuthFlow`) links the two pieces.
  - `Handler` maps each action type to its handler, as the registrations
    at lines 81-85 do.
  - `Cascade` follows every slice action that a handler puts, through that
    action's own handler. `FollowUpsAreQuiet` shows that one level is
    enough.
  - `Settle` is the slice after the whole dispatch.
  - The lemmas give the four end-to-end outcomes: login accepted, login
    rejected, restored token rejected, restored token accepted.

Two details of the code that the model keeps:

- `LOGIN_FAILED` also writes `state.auth = null` (line 25), a property the
  initial state lacks. The model carries it as `AuthField`.
- When a restored token is rejected, the handler dispatches `LOGOUT` through
  the store with `put`. So the `LOGOUT` handler runs too and removes the
  stored record (`RestoreRejected`).

## Model

| member | source | states |
|---|---|---|
| AuthSlice.Initial | src/ducks/auth.js:8-12 | the initial state is "not yet known", not logging in, no records, no `auth` property, and it satisfies the invariant |
| AuthSlice.ApplyLoginAttempt | src/ducks/auth.js:14-16 | LOGIN_ATTEMPT sets `loggingIn`; `currentUser`, `byId` and `auth` are unchanged; the invariant is kept |
| AuthSlice.Store | src/ducks/auth.js:20 | writing `byId[payload.id]` adds that key, maps it to the payload and keeps every other entry |
| AuthSlice.ApplyLoginSuccess | src/ducks/auth.js:17-21 | LOGIN_SUCCESS signs in the payload's id, clears `loggingIn`, stores the payload under its id, keeps every other record and `auth`, and keeps the invariant |
| AuthSlice.ApplyLoginFailed | src/ducks/auth.js:22-26 | LOGIN_FAILED logs out, clears `loggingIn` and sets `auth` to null whatever the state before; `byId` is unchanged |
| AuthSlice.ApplyLogout | src/ducks/auth.js:27-29 | LOGOUT changes only `currentUser`, to logged out |
| AuthSlice.ApplyLoginRestored | src/ducks/auth.js:30-33 | LOGIN_RESTORED signs in the payload's id and stores the payload, leaving `loggingIn`, `auth` and the other records as they were |
| AuthSlice.Reduce | src/ducks/auth.js:6-35 | every reducer case keeps the invariant and removes no key; only LOGIN_SUCCESS and LOGIN_RESTORED change `byId`, and only at the payload's id |
| AuthSlice.LogoutIdempotent | src/ducks/auth.js:27-29 | LOGOUT applied twice gives the same state as once |
| AuthSlice.LoginFailedForgetsSession | src/ducks/auth.js:22-26 | the state after LOGIN_FAILED depends on nothing but the records: not on the state's other fields, not on the failure message |
| AuthSlice.Slice.constructor | src/ducks/auth.js:8-12 | the slice object starts in the initial state |
| AuthSlice.Slice.LoginAttempt | src/ducks/auth.js:14-16 | in place: `loggingIn` becomes true, every other field is unchanged, the invariant is kept |
| AuthSlice.Slice.LoginSuccess | src/ducks/auth.js:17-21 | in place: `currentUser` is the payload's id, `loggingIn` false, `byId` gains or overwrites the payload's entry and keeps the others |
| AuthSlice.Slice.LoginFailed | src/ducks/auth.js:22-26 | in place: `currentUser` null, `loggingIn` false, `auth` null, `byId` unchanged |
| AuthSlice.Slice.Logout | src/ducks/auth.js:27-29 | in place: only `currentUser` changes, to null |
| AuthSlice.Slice.LoginRestored | src/ducks/auth.js:30-33 | in place: `currentUser` is the payload's id, the payload's entry is written, `loggingIn` and `auth` untouched |
| AuthSlice.Slice.Dispatch | src/ducks/auth.js:13-34 | running the case that the action's type names on the fields gives exactly the pure reducer's result |
| AuthHistory.RunAppend | src/ducks/auth.js:6-35 | applying two traces in turn equals applying their concatenation |
| AuthHistory.Run | src/ducks/auth.js:6-35 | the store applying the reducer to each dispatched action in order: every trace from a valid state ends in a valid state, and no key of `byId` is removed |
| AuthHistory.ReachableIsValid | src/ducks/auth.js:8-33 | every state reachable from the initial one is valid: a signed-in user's id is a key of `byId`, and each record sits under its own id |
| AuthHistory.RunKeys | src/ducks/auth.js:11-33 | after any trace the keys of `byId` are the starting keys plus the ids of the LOGIN_SUCCESS and LOGIN_RESTORED payloads; no key is ever removed |
| AuthHistory.RunRecordIsLastStored | src/ducks/auth.js:17-33 | after any trace, the record under an id is the payload of the last LOGIN_SUCCESS or LOGIN_RESTORED with that id; if the trace stores none under it, a starting record stays untouched |
| AuthHistory.ReachableRecordsAreReceived | src/ducks/auth.js:11-33 | in a state reachable from the initial one, every record is the payload of the last LOGIN_SUCCESS or LOGIN_RESTORED of the trace with that id |
| AuthHistory.RunRecordsAreReceived | src/ducks/auth.js:17-33 | every record after a trace is either the starting one, untouched, when the trace stores nothing under its id, or the payload of the last LOGIN_SUCCESS or LOGIN_RESTORED of the trace with that id |
| AuthHistory.LoggingInIffPending | src/ducks/auth.js:14-33 | after any trace, `loggingIn` holds if and only if some LOGIN_ATTEMPT is not followed by a LOGIN_SUCCESS or LOGIN_FAILED, or one was in flight at the start and nothing ended it |
| AuthHistory.AttemptsKeepSession | src/ducks/auth.js:14-16 | a trace of LOGIN_ATTEMPTs alone leaves `currentUser` and `byId` as they were |
| AuthHistory.CurrentUserFollowsLastSessionAction | src/ducks/auth.js:17-33 | after a trace, `currentUser` is the payload's id if the last action other than LOGIN_ATTEMPT was LOGIN_SUCCESS or LOGIN_RESTORED, and null if it was LOGIN_FAILED or LOGOUT |
| AuthHistory.NeverUnknownAgain | src/ducks/auth.js:9-33 | once `currentUser` is no longer `false`, no trace makes it `false` again |
| AuthSagas.OnLoginAttempt | src/ducks/auth.js:42-55 | one call posting the payload's email and password to `/auth/login`, then exactly one put: LOGIN_SUCCESS with the response data if the call resolves, LOGIN_FAILED with the error's message if it throws |
| AuthSagas.OnLoginRestored | src/ducks/auth.js:71-78 | the token update, then the `/auth/validateToken` call, then a LOGOUT put if and only if the validation throws |
| AuthSagas.LoginSuccessStoresWhatItSets | src/ducks/auth.js:57-61 | models `OnLoginSuccess` (with `LoginSuccessNotifiesOnce`, `LoginAccepted`): the success handler sets the payload's token for requests and stores the payload under `currentUser`; the token update comes before position 1 and the storage write after it, and the token set is the stored record's token |
| AuthSagas.LoginSuccessNotifiesOnce | src/ducks/auth.js:57-61 | models `OnLoginSuccess` (with `LoginSuccessStoresWhatItSets`, `LoginAccepted`): the success handler puts the `LoggedInMessage` notification ("Logged in"), and that put at position 1 is its only one; with `LoginSuccessStoresWhatItSets` this places it between the token update and the storage write |
| AuthSagas.LoginFailedIgnoresPayload | src/ducks/auth.js:63-65 | models `OnLoginFailed` (with `LoginRejected`): the failure handler yields the same effects whatever its payload: one put of the `LoginFailedMessage` notification ("Login Failed") and nothing else |
| AuthSagas.LogoutRemovesStoredKey | src/ducks/auth.js:57-69 | models `OnLogout` (with `RestoreRejected`): the logout handler yields one effect, a removal of the very key the success handler writes the record under |
| AuthSagas.LoginAttemptResolvesOnce | src/ducks/auth.js:42-55 | the login handler puts exactly one slice action; it ends the attempt, and it is LOGIN_SUCCESS if and only if the call resolved |
| AuthSagas.LoginSuccessIsQuiet | src/ducks/auth.js:57-61 | the LOGIN_SUCCESS handler puts no slice action, so its dispatch ends the cascade |
| AuthSagas.LoginFailedIsQuiet | src/ducks/auth.js:63-65 | the LOGIN_FAILED handler puts no slice action, whatever its payload |
| AuthSagas.LogoutIsQuiet | src/ducks/auth.js:67-69 | the LOGOUT handler puts no slice action |
| AuthSagas.RestoredLogsOutIffRejected | src/ducks/auth.js:71-78 | the restore handler puts LOGOUT and nothing else when validation throws, and no slice action when it succeeds |
| AuthFlow.Handler | src/ducks/auth.js:81-85 | the handler registered for each action type; only the LOGIN_ATTEMPT handler (exactly one) and the LOGIN_RESTORED handler put slice actions, and those are LOGIN_SUCCESS, LOGIN_FAILED or LOGOUT |
| AuthFlow.Expand | src/ducks/auth.js:51-76 | a `put` of a slice action goes through the store to that action's handler: every effect and every follow-up handler's effect is kept, and quiet follow-ups add no slice action |
| AuthFlow.Cascade | src/ducks/auth.js:42-85 | the effects of a whole dispatch contain the handler's own effects, and put exactly the slice actions that handler puts |
| AuthFlow.FollowUpsAreQuiet | src/ducks/auth.js:42-85 | every slice action a registered handler puts is LOGIN_SUCCESS, LOGIN_FAILED or LOGOUT, whose handlers put no slice action, so the cascade stops after one level |
| AuthFlow.Settle | src/ducks/auth.js:6-85 | a whole dispatch, follow-ups included, keeps the invariant and removes no record; after a LOGIN_ATTEMPT's dispatch settles, `loggingIn` is false whatever the server answered; LOGIN_SUCCESS, LOGIN_FAILED and LOGOUT act through their reducer case alone |
| AuthFlow.LoginAccepted | src/ducks/auth.js:14-61 | login accepted: the effects are post, LOGIN_SUCCESS, token update, success message, storage write, in that order, and the returned user ends signed in, stored, with no login in flight and `auth` unchanged |
| AuthFlow.LoginRejected | src/ducks/auth.js:14-65 | login rejected: the effects are post, LOGIN_FAILED, error message and nothing else (no token update, no storage write); the slice ends logged out, not logging in, `auth` null, records unchanged |
| AuthFlow.RestoreRejected | src/ducks/auth.js:67-78 | restored token rejected: token update, validation, LOGOUT, storage removal; the slice ends logged out with the restored record kept and `loggingIn` and `auth` unchanged |
| AuthFlow.RestoreAccepted | src/ducks/auth.js:71-78 | restored token accepted: only the token update and the validation call; the restored user ends signed in and stored, with `loggingIn` and `auth` unchanged |

## Left out

- The `saga` root and `takeLatest` (src/ducks/auth.js:80-86) are not
  modelled. Cancelling an older running handler when a newer action of the
  same type arrives needs redux-saga's cooperative scheduler. `Handler`
  models only which handler each action type starts.
- Handlers running at the same time are not modelled either. `Cascade`
  lists a follow-up handler's effects right after the `put` that starts it.
  Effects of handlers that run concurrently may interleave differently.
- The network calls (`API.post`, `API.get`) and `updateToken` are not
  performed. They appear only as `call` descriptors. The two calls whose
  results matter are given as abstract outcomes (`Environment`).
- Binding `localStorage.setItem` and `removeItem` (lines 37-40) and running
  them are left out, because they are browser storage. `JSON.stringify` of
  the record is left out too: the `SetItem` descriptor carries the record
  itself.
- `SHOW_MESSAGE` comes from `./messages`, which is not part of this model.
  Its argument is kept as a `Message` value.
- Redux Toolkit and Immer plumbing is left out: action type strings, draft
  copy-on-write, and the exported action creators (line 88).
- User ids are strings. JavaScript turns object keys into strings, so
  numeric ids are not told apart from their decimal strings. That
  conversion is not modelled.
- A user record's properties other than `id` and `token` are kept as
  strings in `profile`. Numbers, booleans or nested objects in a response
  body are not modelled. No modelled behaviour reads them.
- A login response without an `id`, or with no `data`, is outside the
  model. The login data is always a `UserRecord` with an id and a token.
- Errors thrown by storage, notification or token updates are not modelled.
  In the source they escape the handler unhandled. Here every call other
  than the login and validation requests returns normally.
- `loggingIn` being true "while the effect sequence has not resolved" is
  stated over traces of actions (`LoggingInIffPending`), not over running
  handlers.
