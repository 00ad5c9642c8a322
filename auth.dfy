/**
  The authentication slice of the Redux store.  The state is a record of
  five fields that each reducer assigns in place on the draft state: the
  four declared ones and a `user` object that only some reducers create.
  `clearUserId` is declared twice in the reducer table; as with any object
  literal the later declaration is the one that takes effect.
*/
module Auth {
  import opened Js

  /**
    The `user` slot: absent from the initial state, an object `{ userId }`
    after `setUser` or `loginSuccess`, and null after `logout`.
  */
  datatype UserSlot = Unset | NullUser | UserObj(userId: Option<string>)

  /** A snapshot of the slice state. */
  datatype AuthState = AuthState(
    userId: Option<string>,
    isAuthenticated: bool,
    error: Option<string>,
    isLoading: bool,
    user: UserSlot)

  /** The actions the slice exports. */
  datatype Action =
    | SetUserId(id: string)
    | ClearUserId
    | SetUser(userIdOfUser: string)
    | LoginStart
    | SetAuth(flag: bool)
    | LoginSuccess(successId: string)
    | LoginFailure(message: string)
    | Logout

  const Initial: AuthState := AuthState(None, false, None, false, Unset)

  /** The actions that can make the state authenticated. */
  predicate GrantsAuth(a: Action) {
    a.LoginSuccess? || a == SetAuth(true)
  }

  /** While a login is in flight no error is shown. */
  predicate NoErrorWhileLoading(s: AuthState) {
    s.isLoading ==> s.error.None?
  }

  /**
    What each reducer does to the state.  Only the two `userId` reducers
    touch `userId`, only a login success or `setAuth(true)` authenticates,
    only `loginStart` starts loading, and no reducer leaves an error shown
    while loading.
  */
  function Step(s: AuthState, a: Action): (r: AuthState)
    ensures !a.SetUserId? && !a.ClearUserId? ==> r.userId == s.userId
    ensures r.isAuthenticated ==> s.isAuthenticated || GrantsAuth(a)
    ensures r.isLoading <==> a.LoginStart? || (s.isLoading && !a.LoginSuccess? && !a.LoginFailure? && !a.Logout?)
    ensures NoErrorWhileLoading(s) ==> NoErrorWhileLoading(r)
  {
    match a
    case SetUserId(id) =>
      s.(user := if s.user.UserObj? then UserObj(Some(id)) else s.user, userId := Some(id))
    case ClearUserId => s.(userId := None)
    case SetUser(id) => s.(user := UserObj(Some(id)))
    case LoginStart => s.(isLoading := true, error := None)
    case SetAuth(flag) => s.(isAuthenticated := flag)
    case LoginSuccess(id) =>
      s.(user := UserObj(Some(id)), isAuthenticated := true, isLoading := false, error := None)
    case LoginFailure(message) => s.(error := Some(message), isAuthenticated := false, isLoading := false)
    case Logout => s.(user := NullUser, isAuthenticated := false, error := None, isLoading := false)
  }

  /**
    The state after dispatching `actions` in order.  It is authenticated
    only if it started so or some action granted authentication.
  */
  function Run(s: AuthState, actions: seq<Action>): (r: AuthState)
    ensures r.isAuthenticated ==> s.isAuthenticated || exists i :: 0 <= i < |actions| && GrantsAuth(actions[i])
    decreases |actions|
  {
    if actions == [] then s
    else
      var rest := actions[1..];
      var r := Run(Step(s, actions[0]), rest);
      assert forall j :: 0 <= j < |rest| ==> rest[j] == actions[j + 1];
      r
  }

  /** From the initial state, every sequence of actions keeps the invariant. */
  lemma {:induction false} RunKeepsNoErrorWhileLoading(s: AuthState, actions: seq<Action>)
    requires NoErrorWhileLoading(s)
    ensures NoErrorWhileLoading(Run(s, actions))
    decreases |actions|
  {
    if actions != [] {
      RunKeepsNoErrorWhileLoading(Step(s, actions[0]), actions[1..]);
    }
  }

  /**
    Only `setUserId` and `clearUserId` touch `state.userId`: a login or
    logout leaves it as it was.
  */
  lemma {:induction false} UserIdOnlyBySetters(s: AuthState, actions: seq<Action>)
    requires forall i :: 0 <= i < |actions| ==> !actions[i].SetUserId? && !actions[i].ClearUserId?
    ensures Run(s, actions).userId == s.userId
    decreases |actions|
  {
    if actions != [] {
      UserIdOnlyBySetters(Step(s, actions[0]), actions[1..]);
    }
  }

  lemma RunTwo(s: AuthState, a: Action, b: Action)
    ensures Run(s, [a, b]) == Step(Step(s, a), b)
  {
    var s1 := Step(s, a);
    assert [a, b][0] == a && [a, b][1..] == [b];
    assert Run(s, [a, b]) == Run(s1, [b]);
    assert [b][0] == b && [b][1..] == [];
    assert Run(s1, [b]) == Run(Step(s1, b), []);
  }

  /** A started login that succeeds ends authenticated, idle, without error, with the user recorded. */
  lemma StartThenSuccess(s: AuthState, id: string)
    ensures Run(s, [LoginStart, LoginSuccess(id)]) ==
      s.(isLoading := false, error := None, isAuthenticated := true, user := UserObj(Some(id)))
  {
    RunTwo(s, LoginStart, LoginSuccess(id));
  }

  /** A started login that fails ends unauthenticated and idle, showing the message. */
  lemma StartThenFailure(s: AuthState, message: string)
    ensures Run(s, [LoginStart, LoginFailure(message)]) ==
      s.(isLoading := false, error := Some(message), isAuthenticated := false)
  {
    RunTwo(s, LoginStart, LoginFailure(message));
  }

  /** Logging out right after logging in ends logged out and idle, `user` null and `userId` kept. */
  lemma SuccessThenLogout(s: AuthState, id: string)
    ensures Run(s, [LoginSuccess(id), Logout]) ==
      s.(user := NullUser, isAuthenticated := false, error := None, isLoading := false)
  {
    RunTwo(s, LoginSuccess(id), Logout);
  }

  /** The slice, with the reducers assigning the fields of the state in place. */
  class AuthSlice {
    var userId: Option<string>
    var isAuthenticated: bool
    var error: Option<string>
    var isLoading: bool
    var user: UserSlot

    function State(): AuthState
      reads this
    {
      AuthState(userId, isAuthenticated, error, isLoading, user)
    }

    /** `initialState` */
    constructor()
      ensures State() == Initial
    {
      userId := None;
      isAuthenticated := false;
      error := None;
      isLoading := false;
      user := Unset;
    }

    method SetUserId(payload: string)
      modifies this
      ensures State() == Step(old(State()), Action.SetUserId(payload))
      ensures userId == Some(payload)
    {
      if user.UserObj? {
        user := UserObj(Some(payload));
      }
      userId := Some(payload);
    }

    /** The later of the two `clearUserId` declarations. */
    method ClearUserId()
      modifies this
      ensures State() == Step(old(State()), Action.ClearUserId)
      ensures userId == None && user == old(user)
    {
      userId := None;
    }

    method SetUser(payload: string)
      modifies this
      ensures State() == Step(old(State()), Action.SetUser(payload))
      ensures user == UserObj(Some(payload)) && userId == old(userId)
    {
      user := UserObj(Some(payload));
    }

    method LoginStart()
      modifies this
      ensures State() == Step(old(State()), Action.LoginStart)
      ensures isLoading && error == None
    {
      isLoading := true;
      error := None;
    }

    method SetAuth(payload: bool)
      modifies this
      ensures State() == Step(old(State()), Action.SetAuth(payload))
      ensures isAuthenticated == payload
    {
      isAuthenticated := payload;
    }

    method LoginSuccess(payload: string)
      modifies this
      ensures State() == Step(old(State()), Action.LoginSuccess(payload))
      ensures user == UserObj(Some(payload)) && isAuthenticated && !isLoading && error == None
      ensures userId == old(userId)
    {
      user := UserObj(Some(payload));
      isAuthenticated := true;
      isLoading := false;
      error := None;
    }

    method LoginFailure(payload: string)
      modifies this
      ensures State() == Step(old(State()), Action.LoginFailure(payload))
      ensures error == Some(payload) && !isAuthenticated && !isLoading
    {
      error := Some(payload);
      isAuthenticated := false;
      isLoading := false;
    }

    method Logout()
      modifies this
      ensures State() == Step(old(State()), Action.Logout)
      ensures user == NullUser && !isAuthenticated && error == None && !isLoading
      ensures userId == old(userId)
    {
      user := NullUser;
      isAuthenticated := false;
      error := None;
      isLoading := false;
    }

    /** The store's reducer: dispatch one action to its case. */
    method Dispatch(a: Action)
      modifies this
      ensures State() == Step(old(State()), a)
    {
      match a
      case SetUserId(id) => SetUserId(id);
      case ClearUserId => ClearUserId();
      case SetUser(id) => SetUser(id);
      case LoginStart => LoginStart();
      case SetAuth(flag) => SetAuth(flag);
      case LoginSuccess(id) => LoginSuccess(id);
      case LoginFailure(message) => LoginFailure(message);
      case Logout => Logout();
    }
  }
}
