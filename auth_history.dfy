/** What the slice looks like after a sequence of actions, applied by the
    store one after another in dispatch order, and the invariants the five
    reducer cases keep along the way. */
module AuthHistory {
  import opened AuthSlice

  /** The state after applying the actions of `t` to `s`, first to last.
      Every trace keeps the invariant and removes no record. */
  function Run(s: State, t: seq<Action>): (r: State)
    ensures Valid(s) ==> Valid(r)
    ensures s.byId.Keys <= r.byId.Keys
    decreases |t|
  {
    if |t| == 0 then s else Reduce(Run(s, t[..|t| - 1]), t[|t| - 1])
  }

  /** Running two traces in turn is running their concatenation. */
  lemma {:induction false} RunAppend(s: State, t: seq<Action>, u: seq<Action>)
    ensures Run(s, t + u) == Run(Run(s, t), u)
    decreases |u|
  {
    if |u| == 0 {
      assert t + u == t;
    } else {
      assert (t + u)[..|t + u| - 1] == t + u[..|u| - 1];
      RunAppend(s, t, u[..|u| - 1]);
    }
  }

  /** Every state the store can reach from its initial state is valid: in
      particular a signed-in user always has a record. */
  lemma ReachableIsValid(t: seq<Action>)
    ensures Valid(Run(Initial(), t))
  {
  }

  /** The ids of the records that the actions of `t` carry into the slice. */
  ghost function ReceivedIds(t: seq<Action>): set<UserId> {
    set i | 0 <= i < |t| && Stores(t[i]) :: t[i].user.id
  }

  /** The records are exactly those the slice started with together with
      those received along the trace: no key is ever removed. */
  lemma {:induction false} RunKeys(s: State, t: seq<Action>)
    ensures Run(s, t).byId.Keys == s.byId.Keys + ReceivedIds(t)
    decreases |t|
  {
    if |t| > 0 {
      var p, a := t[..|t| - 1], t[|t| - 1];
      RunKeys(s, p);
      var extra := if Stores(a) then {a.user.id} else {};
      assert ReceivedIds(t) == ReceivedIds(p) + extra by {
        forall id | id in ReceivedIds(t) ensures id in ReceivedIds(p) + extra {
          var i :| 0 <= i < |t| && Stores(t[i]) && t[i].user.id == id;
          if i < |p| {
            assert p[i] == t[i];
          }
        }
        forall id | id in ReceivedIds(p) ensures id in ReceivedIds(t) {
          var i :| 0 <= i < |p| && Stores(p[i]) && p[i].user.id == id;
          assert t[i] == p[i];
        }
        if Stores(a) {
          assert t[|t| - 1] == a;
        }
      }
    }
  }

  /** No action of `t` stores a record under `k`. */
  ghost predicate NoStoreOf(t: seq<Action>, k: UserId) {
    forall j :: 0 <= j < |t| && Stores(t[j]) ==> t[j].user.id != k
  }

  /** `t[i]` is the last action of `t` that stores a record under `k`. */
  ghost predicate LastStoreOf(t: seq<Action>, k: UserId, i: int) {
    && 0 <= i < |t| && Stores(t[i]) && t[i].user.id == k
    && forall j :: i < j < |t| && Stores(t[j]) ==> t[j].user.id != k
  }

  /** The record under `k` after a trace is the payload of the last
      LOGIN_SUCCESS or LOGIN_RESTORED of the trace with that id; when there
      is none, it is the starting record, untouched. */
  lemma {:induction false} RunRecordIsLastStored(s: State, t: seq<Action>, k: UserId)
    ensures forall i :: LastStoreOf(t, k, i) ==> k in Run(s, t).byId && Run(s, t).byId[k] == t[i].user
    ensures NoStoreOf(t, k) && k in s.byId ==> k in Run(s, t).byId && Run(s, t).byId[k] == s.byId[k]
    decreases |t|
  {
    if |t| > 0 {
      var p, a := t[..|t| - 1], t[|t| - 1];
      RunRecordIsLastStored(s, p, k);
      if Stores(a) && a.user.id == k {
        assert Stores(t[|t| - 1]) && t[|t| - 1].user.id == k;
      } else {
        forall i | LastStoreOf(t, k, i) ensures LastStoreOf(p, k, i) {
          assert i != |t| - 1;
          forall j | i < j < |p| && Stores(p[j]) ensures p[j].user.id != k {
            assert p[j] == t[j];
          }
        }
        if NoStoreOf(t, k) {
          forall j | 0 <= j < |p| && Stores(p[j]) ensures p[j].user.id != k {
            assert p[j] == t[j];
          }
        }
      }
    }
  }

  /** Every record in the slice is either one it started with, untouched and
      never stored over by the trace, or the payload of the last
      LOGIN_SUCCESS or LOGIN_RESTORED of the trace with that id. */
  lemma {:induction false} RunRecordsAreReceived(s: State, t: seq<Action>, k: UserId)
    requires k in Run(s, t).byId
    ensures (k in s.byId && NoStoreOf(t, k) && Run(s, t).byId[k] == s.byId[k])
         || (exists i :: LastStoreOf(t, k, i) && t[i].user == Run(s, t).byId[k])
    decreases |t|
  {
    if |t| > 0 {
      var p, a := t[..|t| - 1], t[|t| - 1];
      var before := Run(s, p);
      if Stores(a) && k == a.user.id {
        assert LastStoreOf(t, k, |t| - 1) && t[|t| - 1].user == Run(s, t).byId[k];
      } else {
        assert k in before.byId && Run(s, t).byId[k] == before.byId[k];
        RunRecordsAreReceived(s, p, k);
        if k in s.byId && NoStoreOf(p, k) && before.byId[k] == s.byId[k] {
          forall j | 0 <= j < |t| && Stores(t[j]) ensures t[j].user.id != k {
            if j < |p| {
              assert p[j] == t[j];
            }
          }
        } else {
          var i :| LastStoreOf(p, k, i) && p[i].user == before.byId[k];
          assert t[i] == p[i];
          forall j | i < j < |t| && Stores(t[j]) ensures t[j].user.id != k {
            if j < |p| {
              assert p[j] == t[j];
            }
          }
          assert LastStoreOf(t, k, i);
        }
      }
    }
  }

  /** In a state reachable from the initial one, every record is the
      payload of the last LOGIN_SUCCESS or LOGIN_RESTORED of the trace with
      that id. */
  lemma ReachableRecordsAreReceived(t: seq<Action>, k: UserId)
    requires k in Run(Initial(), t).byId
    ensures exists i :: LastStoreOf(t, k, i) && t[i].user == Run(Initial(), t).byId[k]
  {
    RunRecordsAreReceived(Initial(), t, k);
  }

  /** Does the action end a login attempt? */
  predicate Resolves(a: Action) {
    a.LoginSuccess? || a.LoginFailed?
  }

  /** No action of `t` from index `k` on ends a login attempt. */
  ghost predicate UnresolvedFrom(t: seq<Action>, k: nat) {
    forall j :: k <= j < |t| ==> !Resolves(t[j])
  }

  /** A login is pending after `t`: some LOGIN_ATTEMPT of `t` has not been
      followed by a LOGIN_SUCCESS or LOGIN_FAILED, or one was already in
      flight and nothing in `t` ended it. */
  ghost predicate Pending(initially: bool, t: seq<Action>) {
    || (exists i :: 0 <= i < |t| && t[i].LoginAttempt? && UnresolvedFrom(t, i + 1))
    || (initially && UnresolvedFrom(t, 0))
  }

  /** `loggingIn` is true exactly while a login attempt is unresolved;
      LOGOUT and LOGIN_RESTORED neither start nor end one. */
  lemma {:induction false} LoggingInIffPending(s: State, t: seq<Action>)
    ensures Run(s, t).loggingIn <==> Pending(s.loggingIn, t)
    decreases |t|
  {
    if |t| > 0 {
      var p, a := t[..|t| - 1], t[|t| - 1];
      LoggingInIffPending(s, p);
      if a.LoginAttempt? {
        assert t[|t| - 1].LoginAttempt? && UnresolvedFrom(t, |t|);
      } else if Resolves(a) {
        assert !UnresolvedFrom(t, 0) by {
          assert Resolves(t[|t| - 1]);
        }
        forall i | 0 <= i < |t| && t[i].LoginAttempt? ensures !UnresolvedFrom(t, i + 1) {
          assert i + 1 <= |t| - 1;
          assert Resolves(t[|t| - 1]);
        }
      } else {
        assert Run(s, t).loggingIn == Run(s, p).loggingIn;
        forall k | 0 <= k <= |p| ensures UnresolvedFrom(t, k) <==> UnresolvedFrom(p, k) {
          if UnresolvedFrom(p, k) {
            forall j | k <= j < |t| ensures !Resolves(t[j]) {
              if j < |p| {
                assert t[j] == p[j];
              }
            }
          }
          if UnresolvedFrom(t, k) {
            forall j | k <= j < |p| ensures !Resolves(p[j]) {
              assert t[j] == p[j];
            }
          }
        }
        if Pending(s.loggingIn, p) && !(s.loggingIn && UnresolvedFrom(p, 0)) {
          var i :| 0 <= i < |p| && p[i].LoginAttempt? && UnresolvedFrom(p, i + 1);
          assert t[i] == p[i];
        }
        if Pending(s.loggingIn, t) && !(s.loggingIn && UnresolvedFrom(t, 0)) {
          var i :| 0 <= i < |t| && t[i].LoginAttempt? && UnresolvedFrom(t, i + 1);
          assert i < |p|;
          assert p[i] == t[i];
        }
      }
    }
  }

  /** LOGIN_ATTEMPT alone touches neither the session nor the records. */
  lemma {:induction false} AttemptsKeepSession(s: State, t: seq<Action>)
    requires forall j :: 0 <= j < |t| ==> t[j].LoginAttempt?
    ensures Run(s, t).currentUser == s.currentUser && Run(s, t).byId == s.byId
    decreases |t|
  {
    if |t| > 0 {
      AttemptsKeepSession(s, t[..|t| - 1]);
    }
  }

  /** After a trace, `currentUser` is what the last action other than
      LOGIN_ATTEMPT made it: the payload's id after LOGIN_SUCCESS or
      LOGIN_RESTORED, logged out after LOGIN_FAILED or LOGOUT. */
  lemma CurrentUserFollowsLastSessionAction(s: State, t: seq<Action>, i: nat)
    requires i < |t| && !t[i].LoginAttempt?
    requires forall j :: i < j < |t| ==> t[j].LoginAttempt?
    ensures Run(s, t).currentUser == if Stores(t[i]) then SignedIn(t[i].user.id) else LoggedOut
  {
    var head, tail := t[..i + 1], t[i + 1..];
    assert t == head + tail;
    RunAppend(s, head, tail);
    assert head[..|head| - 1] == t[..i] && head[|head| - 1] == t[i];
    forall j | 0 <= j < |tail| ensures tail[j].LoginAttempt? {
      assert tail[j] == t[i + 1 + j];
    }
    AttemptsKeepSession(Run(s, head), tail);
  }

  /** Once the user is known (signed in or logged out), no action makes the
      slice forget it again. */
  lemma {:induction false} NeverUnknownAgain(s: State, t: seq<Action>)
    requires !s.currentUser.Unknown?
    ensures !Run(s, t).currentUser.Unknown?
    decreases |t|
  {
    if |t| > 0 {
      NeverUnknownAgain(s, t[..|t| - 1]);
    }
  }
}
