/** The project router, mounted at `/api/projects`. */
module ProjectRoutes {
  import opened Common
  import opened UserModel
  import opened Routing
  import Auth = AuthMiddleware

  /** Paths below `/api/projects`. */
  datatype ProjectPath = ProjectRoot | ProjectItem(id: Id)

  function ProjectRoute(verb: Verb, path: ProjectPath): (r: Option<Route>)
    ensures r.Some? ==> (r.value.guards == [] <==> verb == GET)
    ensures r.Some? && verb != GET ==> r.value.guards == [Protect, Admin]
    ensures r.None? <==> (path.ProjectRoot? && (verb == PUT || verb == DELETE)) || (path.ProjectItem? && verb == POST)
  {
    match path
    case ProjectRoot =>
      (match verb
       case GET => Some(Route([], ListProjects))
       case POST => Some(Route([Protect, Admin], CreateProject))
       case _ => None)
    case ProjectItem(id) =>
      (match verb
       case GET => Some(Route([], ShowProject(id)))
       case PUT => Some(Route([Protect, Admin], UpdateProject(id)))
       case DELETE => Some(Route([Protect, Admin], DeleteProject(id)))
       case _ => None)
  }

  /** Any administrator reaches the update and delete handlers of any
      project, and nobody else does: the chain looks only at the caller. */
  lemma AdminsOnlyForProjectWrites(verb: Verb, id: Id, header: Option<string>, users: map<Id, User>,
                                   verify: string -> Option<Id>, user: Option<Account>)
    requires verb == PUT || verb == DELETE
    ensures var r := ProjectRoute(verb, ProjectItem(id)).value;
      var a := Auth.Authenticate(header, users, verify);
      (RunChain(r.guards, user, a).Pass? <==> a.Authenticated? && a.account.role == RoleAdmin)
  {
    ProtectThenAdmin(user, Auth.Authenticate(header, users, verify));
    assert ProjectRoute(verb, ProjectItem(id)).value.guards == [Protect, Admin];
  }
}
