/** The `user` slice of the front-end store: who is signed in, whether the
    session is authenticated, and the token. The reducers mutate the draft
    state in place; `Reduce` is their meaning on values and `Slice` is the
    mutable state the reducers update. */
module UserSlice {
  import opened Base

  datatype User = User(id: string, email: string)

  /** `Partial<User>`: each field may be left out. */
  datatype UserPatch = UserPatch(id: Option<string>, email: Option<string>)

  datatype UserState = UserState(userInfo: Option<User>, isAuthenticated: bool, token: Option<string>)

  /** `initialState`. */
  const Initial := UserState(None, false, None)

  datatype Action = Login(user: User, token: Option<string>) | Logout | UpdateUser(patch: UserPatch)

  /** `action.payload.token || null`: an absent or empty token is stored as null. */
  function StoredToken(token: Option<string>): (r: Option<string>)
    ensures r.Some? <==> token.Some? && token.value != ""
    ensures r.Some? ==> r == token
  {
    if token.Some? && token.value != "" then token else None
  }

  /** `{ ...user, ...patch }`: the present fields of the patch win. */
  function Merge(user: User, patch: UserPatch): User {
    User(if patch.id.Some? then patch.id.value else user.id,
         if patch.email.Some? then patch.email.value else user.email)
  }

  /** The three reducers on values. */
  function Reduce(s: UserState, a: Action): UserState {
    match a
    case Login(user, token) => UserState(Some(user), true, StoredToken(token))
    case Logout => UserState(None, false, None)
    case UpdateUser(patch) =>
      if s.userInfo.Some? then s.(userInfo := Some(Merge(s.userInfo.value, patch))) else s
  }

  /** A run of actions from a state. */
  function Run(s: UserState, actions: seq<Action>): UserState
    decreases |actions|
  {
    if |actions| == 0 then s else Run(Reduce(s, actions[0]), actions[1..])
  }

  /** The slice's fields, updated in place by the reducers. */
  class Slice {
    var userInfo: Option<User>
    var isAuthenticated: bool
    var token: Option<string>

    function State(): UserState
      reads this
    {
      UserState(userInfo, isAuthenticated, token)
    }

    constructor ()
      ensures State() == Initial
    {
      userInfo := None;
      isAuthenticated := false;
      token := None;
    }

    method Login(user: User, payloadToken: Option<string>)
      modifies this
      ensures State() == Reduce(old(State()), Action.Login(user, payloadToken))
    {
      userInfo := Some(user);
      token := StoredToken(payloadToken);
      isAuthenticated := true;
    }

    method Logout()
      modifies this
      ensures State() == Reduce(old(State()), Action.Logout)
    {
      userInfo := None;
      token := None;
      isAuthenticated := false;
    }

    method UpdateUser(patch: UserPatch)
      modifies this
      ensures State() == Reduce(old(State()), Action.UpdateUser(patch))
    {
      if userInfo.Some? {
        userInfo := Some(Merge(userInfo.value, patch));
      }
    }
  }

  /** `login` stores the user, marks the session authenticated and keeps the
      token only when it is present and non-empty. */
  lemma LoginEffect(s: UserState, user: User, token: Option<string>)
    ensures Reduce(s, Action.Login(user, token)).userInfo == Some(user)
    ensures Reduce(s, Action.Login(user, token)).isAuthenticated
    ensures Reduce(s, Action.Login(user, token)).token ==
      (if token == None || token == Some("") then None else token)
  {
  }

  /** `logout` from any state gives the initial state, so doing it twice is
      the same as doing it once. */
  lemma LogoutResets(s: UserState)
    ensures Reduce(s, Action.Logout) == Initial
    ensures Reduce(Reduce(s, Action.Logout), Action.Logout) == Reduce(s, Action.Logout)
  {
  }

  /** `login` then `logout` is back at the start. */
  lemma LoginThenLogout(s: UserState, user: User, token: Option<string>)
    ensures Run(s, [Action.Login(user, token), Action.Logout]) == Initial
  {
    var run := [Action.Login(user, token), Action.Logout];
    assert run[1..] == [Action.Logout] && run[1..][1..] == [];
    assert Run(s, run) == Run(Reduce(s, run[0]), [Action.Logout]);
  }

  /** `updateUser` with nobody signed in changes nothing. */
  lemma UpdateWithoutUserIsNoop(s: UserState, patch: UserPatch)
    requires s.userInfo == None
    ensures Reduce(s, Action.UpdateUser(patch)) == s
  {
  }

  /** `updateUser` never touches the token or the authenticated flag, and
      changes exactly the user fields the patch names. */
  lemma UpdateTouchesOnlyPatchedFields(s: UserState, patch: UserPatch)
    requires s.userInfo.Some?
    ensures Reduce(s, Action.UpdateUser(patch)).token == s.token
    ensures Reduce(s, Action.UpdateUser(patch)).isAuthenticated == s.isAuthenticated
    ensures Reduce(s, Action.UpdateUser(patch)).userInfo.Some?
    ensures Reduce(s, Action.UpdateUser(patch)).userInfo.value.id ==
      (if patch.id.Some? then patch.id.value else s.userInfo.value.id)
    ensures Reduce(s, Action.UpdateUser(patch)).userInfo.value.email ==
      (if patch.email.Some? then patch.email.value else s.userInfo.value.email)
  {
  }

  /** The consistency every reachable state keeps: the session is
      authenticated exactly when a user is stored, and a token is only held
      in an authenticated session; a held token is never empty. */
  predicate Consistent(s: UserState) {
    (s.isAuthenticated <==> s.userInfo.Some?)
    && (s.token.Some? ==> s.isAuthenticated && s.token.value != "")
  }

  lemma ReducePreservesConsistent(s: UserState, a: Action)
    requires Consistent(s)
    ensures Consistent(Reduce(s, a))
  {
  }

  /** Every state reachable from the initial one is consistent. */
  lemma {:induction false} RunPreservesConsistent(s: UserState, actions: seq<Action>)
    requires Consistent(s)
    ensures Consistent(Run(s, actions))
    decreases |actions|
  {
    if |actions| > 0 {
      ReducePreservesConsistent(s, actions[0]);
      RunPreservesConsistent(Reduce(s, actions[0]), actions[1..]);
    }
  }

  lemma ReachableIsConsistent(actions: seq<Action>)
    ensures Consistent(Run(Initial, actions))
  {
    RunPreservesConsistent(Initial, actions);
  }

  /** Whatever came before, a run ending in `logout` ends at the initial state. */
  lemma {:induction false} RunEndingInLogout(s: UserState, actions: seq<Action>)
    requires |actions| > 0 && actions[|actions| - 1] == Action.Logout
    ensures Run(s, actions) == Initial
    decreases |actions|
  {
    if |actions| > 1 {
      RunEndingInLogout(Reduce(s, actions[0]), actions[1..]);
    }
  }
}
