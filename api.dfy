/**
  The endpoint table of the client: a base URL and the paths below it, some
  of them built from a goal, task or user id.  Numeric ids are rendered in
  decimal, as a template literal renders an integer.
*/
module Api {
  import opened Js

  const BaseUrl: string := "http://localhost/api"

  const GoogleAuth: string := BaseUrl + "/auth/google"
  const GoogleAuthCallback: string := BaseUrl + "/auth/google/callback"
  const Register: string := BaseUrl + "/register"
  const Logout: string := BaseUrl + "/logout"
  const User: string := BaseUrl + "/user"
  const CsrfCookie: string := "/sanctum/csrf-cookie"
  const CreateUser: string := BaseUrl + "/users"
  const LoginUrl: string := BaseUrl + "/login"
  const Goals: string := BaseUrl + "/goals"
  const CreateGoal: string := BaseUrl + "/goals"

  /** `${BASE_URL}` followed by `path` and the decimal id. */
  function WithId(path: string, id: int): (url: string)
    ensures |url| > |BaseUrl + path| && url[..|BaseUrl + path|] == BaseUrl + path
  {
    var s := IntToString(id);
    assert |s| > 0 by {
      NatToStringDigits(if id < 0 then -id else id);
    }
    BaseUrl + path + s
  }

  function UserGoals(userId: string): (url: string)
    ensures StartsWith(url, BaseUrl) && url[|BaseUrl|..] == "/goals/user/" + userId
  {
    BaseUrl + "/goals/user/" + userId
  }

  function DeleteGoal(goalId: int): (url: string)
    ensures StartsWith(url, BaseUrl)
  {
    WithId("/goals/", goalId)
  }

  function GoalDetail(goalId: int): (url: string)
    ensures StartsWith(url, BaseUrl)
  {
    WithId("/goals/", goalId)
  }

  function ChatGoal(goalId: int): (url: string)
    ensures StartsWith(url, BaseUrl)
  {
    WithId("/goals/", goalId) + "/chat"
  }

  function ChatHistory(goalId: int): (url: string)
    ensures StartsWith(url, BaseUrl)
  {
    WithId("/goals/", goalId) + "/chat-history"
  }

  function GoalTasks(goalId: int): (url: string)
    ensures StartsWith(url, BaseUrl)
  {
    WithId("/goals/", goalId) + "/tasks"
  }

  function SaveTasks(goalId: int): (url: string)
    ensures StartsWith(url, BaseUrl)
  {
    WithId("/goals/", goalId) + "/tasks/save"
  }

  function UpdateTask(taskId: int): (url: string)
    ensures StartsWith(url, BaseUrl)
  {
    WithId("/tasks/", taskId)
  }

  function DeleteTask(taskId: int): (url: string)
    ensures StartsWith(url, BaseUrl)
  {
    WithId("/tasks/", taskId)
  }

  /** `a` is a prefix of `b`. */
  predicate StartsWith(b: string, a: string) {
    |a| <= |b| && b[..|a|] == a
  }

  /** Every fixed endpoint but the CSRF one lives under the base URL; the CSRF path is relative. */
  lemma FixedEndpointsUnderBase()
    ensures forall url :: (url in [GoogleAuth, GoogleAuthCallback, Register, Logout, User, CreateUser, LoginUrl, Goals, CreateGoal]
      ==> StartsWith(url, BaseUrl))
    ensures !StartsWith(CsrfCookie, BaseUrl) && CsrfCookie[0] == '/'
  {
    forall url | url in [GoogleAuth, GoogleAuthCallback, Register, Logout, User, CreateUser, LoginUrl, Goals, CreateGoal]
      ensures StartsWith(url, BaseUrl)
    {
      var path :| url == BaseUrl + path;
      assert url[..|BaseUrl|] == BaseUrl;
    }
    assert CsrfCookie[0] != BaseUrl[0];
  }

  /** Deleting a goal and reading it use the same URL; creating and listing goals too. */
  lemma SharedEndpoints(id: int)
    ensures DeleteGoal(id) == GoalDetail(id)
    ensures CreateGoal == Goals
    ensures UpdateTask(id) == DeleteTask(id)
  {
  }

  /** The task and chat endpoints extend the goal's own URL. */
  lemma NestedEndpoints(goalId: int)
    ensures SaveTasks(goalId) == GoalTasks(goalId) + "/save"
    ensures ChatGoal(goalId) == GoalDetail(goalId) + "/chat"
    ensures GoalTasks(goalId) == GoalDetail(goalId) + "/tasks"
  {
  }

  /** Cancelling a common prefix and suffix. */
  lemma Cancel(p: string, x: string, y: string, q: string)
    requires p + x + q == p + y + q
    ensures x == y
  {
    var u, v := p + x + q, p + y + q;
    assert |x| == |y|;
    assert x == u[|p|..|p| + |x|];
    assert y == v[|p|..|p| + |y|];
  }

  lemma WithIdInjective(path: string, a: int, b: int, suffix: string)
    requires WithId(path, a) + suffix == WithId(path, b) + suffix
    ensures a == b
  {
    Cancel(BaseUrl + path, IntToString(a), IntToString(b), suffix);
    IntToStringInjective(a, b);
  }

  /** Distinct ids give distinct URLs, for every id-built endpoint. */
  lemma BuildersInjective(a: int, b: int)
    requires a != b
    ensures GoalDetail(a) != GoalDetail(b) && DeleteGoal(a) != DeleteGoal(b)
    ensures ChatGoal(a) != ChatGoal(b) && ChatHistory(a) != ChatHistory(b)
    ensures GoalTasks(a) != GoalTasks(b) && SaveTasks(a) != SaveTasks(b)
    ensures UpdateTask(a) != UpdateTask(b) && DeleteTask(a) != DeleteTask(b)
  {
    if GoalDetail(a) == GoalDetail(b) {
      WithIdInjective("/goals/", a, b, "");
    }
    if ChatGoal(a) == ChatGoal(b) {
      WithIdInjective("/goals/", a, b, "/chat");
    }
    if ChatHistory(a) == ChatHistory(b) {
      WithIdInjective("/goals/", a, b, "/chat-history");
    }
    if GoalTasks(a) == GoalTasks(b) {
      WithIdInjective("/goals/", a, b, "/tasks");
    }
    if SaveTasks(a) == SaveTasks(b) {
      WithIdInjective("/goals/", a, b, "/tasks/save");
    }
    if UpdateTask(a) == UpdateTask(b) {
      WithIdInjective("/tasks/", a, b, "");
    }
  }

  lemma UserGoalsInjective(u: string, v: string)
    ensures UserGoals(u) == UserGoals(v) <==> u == v
  {
    if UserGoals(u) == UserGoals(v) {
      Cancel(BaseUrl + "/goals/user/", u, v, "");
    }
  }

  /** A goal URL never names a task, whatever the two ids. */
  lemma GoalAndTaskUrlsDiffer(goalId: int, taskId: int)
    ensures GoalDetail(goalId) != UpdateTask(taskId)
  {
    var g, t := GoalDetail(goalId), UpdateTask(taskId);
    assert g[|BaseUrl| + 1] == 'g';
    assert t[|BaseUrl| + 1] == 't';
  }
}
