/** client/src/contexts/AuthContext.jsx: the `authReducer` state machine of
    the client's session. Reading the saved token from local storage is I/O;
    the initial token is a parameter. */
module AuthState {
  import opened Common

  datatype State = State(
    user: Option<Principal>,
    token: Option<string>,
    isAuthenticated: bool,
    loading: bool,
    error: Option<string>)

  datatype Action =
    | AuthStart
    | AuthSuccess(user: Option<Principal>, token: Option<string>)   // None: the field was missing
    | AuthFailure(message: Option<string>)
    | Logout
    | UpdateUser(user: Option<Principal>)
    | ClearError
    | Other(kind: string)   // any other `type`

  /** `initialState`, with the token found in local storage. */
  function Initial(savedToken: Option<string>): (s: State)
    ensures s.user.None? && s.token == savedToken && !s.isAuthenticated && s.loading && s.error.None?
  {
    State(None, savedToken, false, true, None)
  }

  function Reduce(s: State, a: Action): (r: State)
    ensures a.AuthStart? ==>
      r.user == s.user && r.token == s.token && r.isAuthenticated == s.isAuthenticated && r.loading && r.error.None?
    ensures a.AuthSuccess? ==>
      r.user == a.user && r.token == a.token && r.isAuthenticated && !r.loading && r.error.None?
    ensures a.AuthFailure? ==>
      r.user.None? && r.token.None? && !r.isAuthenticated && !r.loading && r.error == a.message
    ensures a.UpdateUser? ==> r == s.(user := a.user)
    ensures a.ClearError? ==> r == s.(error := None)
    ensures a.Other? ==> r == s
  {
    match a
    case AuthStart => s.(loading := true, error := None)
    case AuthSuccess(user, token) =>
      s.(user := user, token := token, isAuthenticated := true, loading := false, error := None)
    case AuthFailure(message) =>
      s.(user := None, token := None, isAuthenticated := false, loading := false, error := message)
    case Logout =>
      s.(user := None, token := None, isAuthenticated := false, loading := false, error := None)
    case UpdateUser(user) => s.(user := user)
    case ClearError => s.(error := None)
    case Other(_) => s
  }

  /** `LOGOUT` is `AUTH_FAILURE` without an error. */
  lemma LogoutIsQuietFailure(s: State, message: Option<string>)
    ensures Reduce(s, Logout) == Reduce(s, AuthFailure(message)).(error := None)
    ensures Reduce(s, Logout) == Reduce(s, AuthFailure(None))
  {
  }

  /** Logging out twice is logging out once, and clears any error. */
  lemma LogoutIdempotent(s: State)
    ensures Reduce(Reduce(s, Logout), Logout) == Reduce(s, Logout)
    ensures Reduce(Reduce(s, Logout), ClearError) == Reduce(s, Logout)
  {
  }

  /** The session's consistency: an authenticated session has a user and a
      token and shows no error. */
  predicate Consistent(s: State) {
    s.isAuthenticated ==> s.user.Some? && s.token.Some? && s.error.None?
  }

  /** The payloads the reducer stores carry a user (and a token). */
  predicate Present(a: Action) {
    && (a.AuthSuccess? ==> a.user.Some? && a.token.Some?)
    && (a.UpdateUser? ==> a.user.Some?)
  }

  function ReduceAll(s: State, actions: seq<Action>): State
    decreases |actions|
  {
    if actions == [] then s else ReduceAll(Reduce(s, actions[0]), actions[1..])
  }

  lemma ReduceConsistent(s: State, a: Action)
    requires Consistent(s) && Present(a)
    ensures Consistent(Reduce(s, a))
  {
  }

  /** A success or profile update whose payload lacks the user signs the
      session in, or keeps it signed in, with no user. The profile load on
      mount is where this can happen: it takes the user from a different
      field of the reply than register and login do. */
  lemma MissingUserBreaks(s: State, token: string)
    ensures var r := Reduce(s, AuthSuccess(None, Some(token)));
      r.isAuthenticated && r.user.None?
    ensures s.isAuthenticated ==> !Consistent(Reduce(s, UpdateUser(None)))
  {
  }

  /** Every sequence of dispatches with present payloads keeps the session
      consistent. */
  lemma {:induction false} AlwaysConsistent(s: State, actions: seq<Action>)
    requires Consistent(s)
    requires forall i :: 0 <= i < |actions| ==> Present(actions[i])
    ensures Consistent(ReduceAll(s, actions))
    decreases |actions|
  {
    if actions != [] {
      ReduceConsistent(s, actions[0]);
      AlwaysConsistent(Reduce(s, actions[0]), actions[1..]);
    }
  }

  lemma FromInitial(savedToken: Option<string>, actions: seq<Action>)
    requires forall i :: 0 <= i < |actions| ==> Present(actions[i])
    ensures Consistent(ReduceAll(Initial(savedToken), actions))
  {
    AlwaysConsistent(Initial(savedToken), actions);
  }

  /** Whatever the payloads, an authenticated session never shows an error. */
  lemma {:induction false} SignedInShowsNoError(s: State, actions: seq<Action>)
    requires s.isAuthenticated ==> s.error.None?
    ensures var r := ReduceAll(s, actions);
      r.isAuthenticated ==> r.error.None?
    decreases |actions|
  {
    if actions != [] {
      SignedInShowsNoError(Reduce(s, actions[0]), actions[1..]);
    }
  }

  /** After the last of several dispatches that ends in a failure, the
      session is signed out whatever came before. */
  lemma {:induction false} FailureSignsOut(s: State, actions: seq<Action>, message: Option<string>)
    ensures var r := ReduceAll(s, actions + [AuthFailure(message)]);
      !r.isAuthenticated && r.user.None? && r.token.None? && r.error == message
    decreases |actions|
  {
    if actions == [] {
      assert ReduceAll(Reduce(s, AuthFailure(message)), []) == Reduce(s, AuthFailure(message));
    } else {
      assert (actions + [AuthFailure(message)])[1..] == actions[1..] + [AuthFailure(message)];
      FailureSignsOut(Reduce(s, actions[0]), actions[1..], message);
    }
  }
}
