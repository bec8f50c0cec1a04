/** What the route tables are made of, and how a chain of guards runs in
    front of a handler: each guard either calls `next()`, which passes control
    to the following one, or throws, which skips everything after it. */
module Routing {
  import opened Common
  import opened Store
  import opened UserModel
  import opened Http
  import Auth = AuthMiddleware

  datatype Verb = GET | POST | PUT | DELETE

  /** The middleware a route can put in front of its handler. */
  datatype Guard = Protect | Admin

  /** The handler a route ends in, with the path parameters it reads. */
  datatype Action =
    | ListPosts | CreatePost | ShowPost(id: Id) | UpdatePost(id: Id) | DeletePost(id: Id)
    | ListComments(postId: Id) | AddComment(postId: Id)
    | ListProjects | CreateProject | ShowProject(id: Id) | UpdateProject(id: Id) | DeleteProject(id: Id)
    | Register | Login | SendMessage

  datatype Route = Route(guards: seq<Guard>, action: Action)

  /** How a guard chain ends: control reaches the handler with `req.user`
      as given, or a guard threw with the status it set. */
  datatype Verdict = Pass(user: Option<Account>) | Stop(status: int, failure: Failure)

  /** The chain's decision, given `req.user` before it runs and what
      `protect` decides for the request. A passing `protect` always leaves
      `req.user` set to the authenticated account, and a chain that ends in
      `admin` only passes with an administrator in `req.user`. */
  function RunChain(guards: seq<Guard>, user: Option<Account>, auth: Auth.AuthResult): (r: Verdict)
    ensures r.Stop? ==> r.status == StatusUnauthorized || r.status == StatusForbidden
    ensures r.Stop? && r.status == StatusUnauthorized ==> !auth.Authenticated? && r.failure == Auth.AuthFailure(auth)
    ensures r.Stop? && r.status == StatusForbidden ==> r.failure == Raised(Auth.MsgNotAdmin)
    ensures r.Pass? && Protect in guards ==> auth.Authenticated? && r.user == Some(auth.account)
    ensures r.Pass? && Protect !in guards ==> r.user == user
    ensures r.Pass? && |guards| > 0 && guards[|guards| - 1] == Admin ==> Auth.IsAdmin(r.user)
    decreases |guards|
  {
    if guards == [] then Pass(user)
    else
      var rest := guards[1..];
      assert guards == [guards[0]] + rest;
      match guards[0]
      case Protect =>
        if auth.Authenticated? then RunChain(rest, Some(auth.account), auth)
        else Stop(StatusUnauthorized, Auth.AuthFailure(auth))
      case Admin =>
        if Auth.IsAdmin(user) then
          var r := RunChain(rest, user, auth);
          assert rest == [] ==> r == Pass(user);
          r
        else Stop(StatusForbidden, Raised(Auth.MsgNotAdmin))
  }

  /** The chain `protect, admin` passes exactly for an authenticated
      administrator; otherwise it ends in 401 or 403 before the handler. */
  lemma ProtectThenAdmin(user: Option<Account>, auth: Auth.AuthResult)
    ensures var r := RunChain([Protect, Admin], user, auth);
      (r.Pass? <==> auth.Authenticated? && auth.account.role == RoleAdmin) &&
      (r.Pass? ==> r.user == Some(auth.account)) &&
      (!auth.Authenticated? ==> r == Stop(StatusUnauthorized, Auth.AuthFailure(auth))) &&
      (auth.Authenticated? && auth.account.role != RoleAdmin ==> r == Stop(StatusForbidden, Raised(Auth.MsgNotAdmin)))
  {
    assert [Protect, Admin][1..] == [Admin];
    assert [Admin][1..] == [];
  }

  /** The chain `protect` alone passes exactly for an authenticated user, whatever the role. */
  lemma ProtectOnly(user: Option<Account>, auth: Auth.AuthResult)
    ensures var r := RunChain([Protect], user, auth);
      (r.Pass? <==> auth.Authenticated?) &&
      (r.Pass? ==> r.user == Some(auth.account)) &&
      (!auth.Authenticated? ==> r == Stop(StatusUnauthorized, Auth.AuthFailure(auth)))
  {
    assert [Protect][1..] == [];
  }

  /** Runs the guards of a route on the exchange, one after the other, as
      Express does when each of them calls `next()`. */
  method RunGuards(guards: seq<Guard>, ex: Exchange, users: Collection<User>, verify: string -> Option<Id>)
    returns (step: Step)
    modifies ex
    ensures var v := RunChain(guards, old(ex.user), Auth.Authenticate(ex.authorization, users.docs, verify));
      (step.Next? <==> v.Pass?) &&
      (v.Pass? ==> ex.user == v.user && ex.status == old(ex.status)) &&
      (v.Stop? ==> step == Halt(v.failure) && ex.status == v.status)
    decreases |guards|
  {
    if guards == [] {
      return Next;
    }
    var first: Step;
    match guards[0] {
      case Protect => first := Auth.Protect(ex, users, verify);
      case Admin => first := Auth.Admin(ex);
    }
    if first.Halt? {
      return first;
    }
    step := RunGuards(guards[1..], ex, users, verify);
  }
}
