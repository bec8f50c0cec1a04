/** The application: the routers mounted under `/api`, the guards and handler
    of the matched route, and the error handler behind them, over the five
    stores. The stores keep an invariant that no request can break. */
module App {
  import opened Common
  import opened Store
  import opened UserModel
  import opened BlogPostModel
  import opened CommentModel
  import opened ProjectModel
  import opened MessageModel
  import opened Http
  import opened Routing
  import opened CommentRoutes
  import opened BlogRoutes
  import opened ProjectRoutes
  import opened ErrorMiddleware
  import Auth = AuthMiddleware
  import BlogController
  import CommentController
  import UserController
  import ProjectController
  import ContactController

  /** Paths below `/api/users`. */
  datatype UserPath = RegisterPath | LoginPath

  /** The mounts of the application: `/api/users`, `/api/blog`,
      `/api/projects` and `/api/contact`. */
  datatype ApiPath = Users(users: UserPath) | Blog(blog: BlogPath) | Projects(projects: ProjectPath) | Contact

  /** The route a request reaches, if any. The user and contact routers
      accept POST only and put no guard in front of their handlers. */
  function RouteOf(verb: Verb, path: ApiPath): (r: Option<Route>)
    ensures path.Blog? ==> r == BlogRoute(verb, path.blog)
    ensures path.Projects? ==> r == ProjectRoute(verb, path.projects)
    ensures path.Users? || path.Contact? ==> (r.Some? <==> verb == POST) && (r.Some? ==> r.value.guards == [])
  {
    match path
    case Users(p) => if verb == POST then Some(Route([], if p == RegisterPath then Register else Login)) else None
    case Blog(p) => BlogRoute(verb, p)
    case Projects(p) => ProjectRoute(verb, p)
    case Contact => if verb == POST then Some(Route([], SendMessage)) else None
  }

  /** The handlers that write posts or projects. */
  predicate NeedsAdmin(a: Action) {
    a.CreatePost? || a.UpdatePost? || a.DeletePost? || a.CreateProject? || a.UpdateProject? || a.DeleteProject?
  }

  /** The handlers that read `req.user`. */
  predicate NeedsLogin(a: Action) {
    NeedsAdmin(a) || a.AddComment?
  }

  /** Every route that reaches a handler reading `req.user` runs `protect`
      first, and every route that writes posts or projects then runs `admin`. */
  lemma RouteGuards(verb: Verb, path: ApiPath)
    requires RouteOf(verb, path).Some?
    ensures var r := RouteOf(verb, path).value;
      (NeedsAdmin(r.action) ==> r.guards == [Protect, Admin]) &&
      (r.action.AddComment? ==> r.guards == [Protect]) &&
      (!NeedsLogin(r.action) ==> r.guards == [])
  {
  }

  // ------------------------------------------------------------------
  // The stores and their invariant.
  // ------------------------------------------------------------------

  /** A stored post passes its schema and was written by a stored administrator. */
  ghost predicate PostOk(users: map<Id, User>, p: Post) {
    BlogPostModel.Violations(p) == {} && p.author in users && users[p.author].role == RoleAdmin
  }

  /** A stored comment passes its schema and points at a stored post and a stored user. */
  ghost predicate CommentOk(users: map<Id, User>, posts: map<Id, Post>, c: Comment) {
    CommentModel.Violations(c) == {} && c.post in posts && c.author in users
  }

  /** A stored project passes its schema and was created by a stored administrator.
      The owner clause holds because the model's project updates keep `user`;
      an update body naming `user` would reassign it unchecked. */
  ghost predicate ProjectOk(users: map<Id, User>, p: Project) {
    ProjectModel.Violations(p) == {} && p.user in users && users[p.user].role == RoleAdmin
  }

  /** Every reference from a post, comment or project points at a stored document. */
  ghost predicate Linked(users: map<Id, User>, posts: map<Id, Post>, comments: map<Id, Comment>,
                         projects: map<Id, Project>) {
    (forall id :: id in posts ==> PostOk(users, posts[id])) &&
    (forall id :: id in comments ==> CommentOk(users, posts, comments[id])) &&
    (forall id :: id in projects ==> ProjectOk(users, projects[id]))
  }

  /** The invariant of the whole database. */
  ghost predicate Consistent(users: map<Id, User>, posts: map<Id, Post>, comments: map<Id, Comment>,
                             projects: map<Id, Project>, messages: map<Id, Message>) {
    ValidUsers(users) &&
    Linked(users, posts, comments, projects) &&
    (forall id :: id in messages ==> MessageModel.Violations(messages[id]) == {})
  }

  /** The database: one collection per model. */
  class Database {
    const users: Collection<User>
    const posts: Collection<Post>
    const comments: Collection<Comment>
    const projects: Collection<Project>
    const messages: Collection<Message>

    ghost predicate Valid()
      reads this, users, posts, comments, projects, messages
    {
      users.Valid() && posts.Valid() && comments.Valid() && projects.Valid() && messages.Valid() &&
      Consistent(users.docs, posts.docs, comments.docs, projects.docs, messages.docs)
    }

    /** No store changed. */
    twostate predicate Unchanged()
      reads this, users, posts, comments, projects, messages
    {
      users.docs == old(users.docs) && posts.docs == old(posts.docs) && comments.docs == old(comments.docs) &&
      projects.docs == old(projects.docs) && messages.docs == old(messages.docs)
    }

    constructor ()
      ensures Valid()
      ensures users.docs == map[] && posts.docs == map[] && comments.docs == map[]
      ensures projects.docs == map[] && messages.docs == map[]
    {
      users := new Collection<User>();
      posts := new Collection<Post>();
      comments := new Collection<Comment>();
      projects := new Collection<Project>();
      messages := new Collection<Message>();
    }
  }

  /** Every comment stored before a request is still stored afterwards and
      unchanged, unless the request deletes the post it belongs to: comments
      disappear only through the post's cascade. */
  ghost predicate CommentsKept(before: map<Id, Comment>, after: map<Id, Comment>, action: Action) {
    forall k :: k in before && !(action.DeletePost? && before[k].post == action.id) ==>
      k in after && after[k] == before[k]
  }

  /** The caller a login-requiring handler receives: the stored user with that id, password left out. */
  ghost predicate StoredCaller(users: map<Id, User>, caller: Account) {
    caller.id in users && caller == PublicView(caller.id, users[caller.id])
  }

  // ------------------------------------------------------------------
  // How each kind of store update keeps the invariant.
  // ------------------------------------------------------------------

  lemma UserAdded(users: map<Id, User>, posts: map<Id, Post>, comments: map<Id, Comment>,
                  projects: map<Id, Project>, messages: map<Id, Message>, id: Id, u: User)
    requires Consistent(users, posts, comments, projects, messages)
    requires id !in users && ValidUsers(users[id := u])
    ensures Consistent(users[id := u], posts, comments, projects, messages)
  {
    LinkedAfterUserAdded(users, posts, comments, projects, id, u);
  }

  lemma LinkedAfterUserAdded(users: map<Id, User>, posts: map<Id, Post>, comments: map<Id, Comment>,
                             projects: map<Id, Project>, id: Id, u: User)
    requires Linked(users, posts, comments, projects) && id !in users
    ensures Linked(users[id := u], posts, comments, projects)
  {
    var users' := users[id := u];
    forall k | k in posts ensures PostOk(users', posts[k]) {
      assert users'[posts[k].author] == users[posts[k].author];
    }
    forall k | k in comments ensures CommentOk(users', posts, comments[k]) {
      assert comments[k].author in users';
    }
    forall k | k in projects ensures ProjectOk(users', projects[k]) {
      assert users'[projects[k].user] == users[projects[k].user];
    }
  }

  lemma PostWritten(users: map<Id, User>, posts: map<Id, Post>, comments: map<Id, Comment>,
                    projects: map<Id, Project>, messages: map<Id, Message>, id: Id, p: Post)
    requires Consistent(users, posts, comments, projects, messages)
    requires PostOk(users, p)
    ensures Consistent(users, posts[id := p], comments, projects, messages)
  {
    var posts' := posts[id := p];
    forall k | k in posts' ensures PostOk(users, posts'[k]) {
      if k != id {
        assert posts'[k] == posts[k];
      }
    }
    forall k | k in comments ensures CommentOk(users, posts', comments[k]) {
      assert comments[k].post in posts;
    }
  }

  lemma PostDeleted(users: map<Id, User>, posts: map<Id, Post>, comments: map<Id, Comment>,
                    projects: map<Id, Project>, messages: map<Id, Message>, id: Id)
    requires Consistent(users, posts, comments, projects, messages)
    ensures Consistent(users, posts - {id}, AfterCascade(comments, id), projects, messages)
  {
    var posts', comments' := posts - {id}, AfterCascade(comments, id);
    forall k | k in posts' ensures PostOk(users, posts'[k]) {
      assert posts'[k] == posts[k];
    }
    forall k | k in comments' ensures CommentOk(users, posts', comments'[k]) {
      assert comments'[k] == comments[k];
      assert comments[k].post in posts && comments[k].post != id;
    }
  }

  lemma CommentAdded(users: map<Id, User>, posts: map<Id, Post>, comments: map<Id, Comment>,
                     projects: map<Id, Project>, messages: map<Id, Message>, id: Id, c: Comment)
    requires Consistent(users, posts, comments, projects, messages)
    requires CommentOk(users, posts, c)
    ensures Consistent(users, posts, comments[id := c], projects, messages)
  {
  }

  lemma ProjectWritten(users: map<Id, User>, posts: map<Id, Post>, comments: map<Id, Comment>,
                       projects: map<Id, Project>, messages: map<Id, Message>, id: Id, p: Project)
    requires Consistent(users, posts, comments, projects, messages)
    requires ProjectOk(users, p)
    ensures Consistent(users, posts, comments, projects[id := p], messages)
  {
  }

  lemma ProjectDeleted(users: map<Id, User>, posts: map<Id, Post>, comments: map<Id, Comment>,
                       projects: map<Id, Project>, messages: map<Id, Message>, id: Id)
    requires Consistent(users, posts, comments, projects, messages)
    ensures Consistent(users, posts, comments, projects - {id}, messages)
  {
  }

  lemma MessageAdded(users: map<Id, User>, posts: map<Id, Post>, comments: map<Id, Comment>,
                     projects: map<Id, Project>, messages: map<Id, Message>, id: Id, m: Message)
    requires Consistent(users, posts, comments, projects, messages)
    requires MessageModel.Violations(m) == {}
    ensures Consistent(users, posts, comments, projects, messages[id := m])
  {
  }

  // ------------------------------------------------------------------
  // The handlers, run against the database.
  // ------------------------------------------------------------------

  method RunCreatePost(db: Database, caller: Account, body: map<string, string>, now: nat) returns (out: Outcome)
    requires db.Valid() && StoredCaller(db.users.docs, caller) && caller.role == RoleAdmin
    modifies db.posts
    ensures db.Valid()
  {
    ghost var users, posts, comments, projects, messages :=
      db.users.docs, db.posts.docs, db.comments.docs, db.projects.docs, db.messages.docs;
    out := BlogController.CreateBlogPost(db.posts, caller, body, now);
    if out.Sent? {
      PostWritten(users, posts, comments, projects, messages, out.reply.post.id, out.reply.post.fields);
    }
  }

  method RunUpdatePost(db: Database, caller: Account, id: Id, body: map<string, string>) returns (out: Outcome)
    requires db.Valid()
    modifies db.posts
    ensures db.Valid()
  {
    ghost var users, posts, comments, projects, messages :=
      db.users.docs, db.posts.docs, db.comments.docs, db.projects.docs, db.messages.docs;
    out := BlogController.UpdateBlogPost(db.posts, caller, id, body);
    if db.posts.docs != posts {
      ghost var edited := BlogController.ApplyEdit(posts[id], FieldOf(body, "title"), FieldOf(body, "content"));
      PostWritten(users, posts, comments, projects, messages, id, edited);
    }
  }

  method RunDeletePost(db: Database, caller: Account, id: Id) returns (out: Outcome)
    requires db.Valid()
    modifies db.posts, db.comments
    ensures db.Valid()
    ensures CommentsKept(old(db.comments.docs), db.comments.docs, DeletePost(id))
  {
    ghost var users, posts, comments, projects, messages :=
      db.users.docs, db.posts.docs, db.comments.docs, db.projects.docs, db.messages.docs;
    out := BlogController.DeleteBlogPost(db.posts, db.comments, caller, id);
    if id in posts && BlogController.MayModify(caller, posts[id]) {
      PostDeleted(users, posts, comments, projects, messages, id);
    } else {
      assert db.posts.docs == posts && db.comments.docs == comments;
    }
  }

  method RunAddComment(db: Database, caller: Account, postId: Id, body: map<string, string>) returns (out: Outcome)
    requires db.Valid() && StoredCaller(db.users.docs, caller)
    modifies db.comments
    ensures db.Valid()
    ensures CommentsKept(old(db.comments.docs), db.comments.docs, AddComment(postId))
  {
    ghost var users, posts, comments, projects, messages :=
      db.users.docs, db.posts.docs, db.comments.docs, db.projects.docs, db.messages.docs;
    out := CommentController.CreateComment(db.posts, db.comments, caller, postId, body);
    if out.Sent? {
      CommentAdded(users, posts, comments, projects, messages, out.reply.comment.id, out.reply.comment.fields);
    }
  }

  method RunCreateProject(db: Database, caller: Account, body: map<string, string>) returns (out: Outcome)
    requires db.Valid() && StoredCaller(db.users.docs, caller) && caller.role == RoleAdmin
    modifies db.projects
    ensures db.Valid()
  {
    ghost var users, posts, comments, projects, messages :=
      db.users.docs, db.posts.docs, db.comments.docs, db.projects.docs, db.messages.docs;
    out := ProjectController.CreateProject(db.projects, caller, body);
    if out.Sent? {
      ProjectWritten(users, posts, comments, projects, messages, out.reply.project.id, out.reply.project.fields);
    }
  }

  method RunUpdateProject(db: Database, id: Id, body: map<string, string>) returns (out: Outcome)
    requires db.Valid()
    modifies db.projects
    ensures db.Valid()
  {
    ghost var users, posts, comments, projects, messages :=
      db.users.docs, db.posts.docs, db.comments.docs, db.projects.docs, db.messages.docs;
    if id in projects {
      ProjectController.UpdateViolationsOfValid(projects[id], body);
    }
    out := ProjectController.UpdateProject(db.projects, id, body);
    if id in projects && ProjectController.UpdateViolations(body) == {} {
      ProjectWritten(users, posts, comments, projects, messages, id, ProjectController.Patched(projects[id], body));
    }
  }

  method RunDeleteProject(db: Database, id: Id) returns (out: Outcome)
    requires db.Valid()
    modifies db.projects
    ensures db.Valid()
  {
    ghost var users, posts, comments, projects, messages :=
      db.users.docs, db.posts.docs, db.comments.docs, db.projects.docs, db.messages.docs;
    ProjectDeleted(users, posts, comments, projects, messages, id);
    out := ProjectController.DeleteProject(db.projects, id);
  }

  method RunRegister(db: Database, body: map<string, string>, env: Env) returns (out: Outcome)
    requires db.Valid()
    modifies db.users
    ensures db.Valid()
  {
    ghost var users, posts, comments, projects, messages :=
      db.users.docs, db.posts.docs, db.comments.docs, db.projects.docs, db.messages.docs;
    out := UserController.RegisterUser(db.users, body, env);
    if out.Sent? {
      UserAdded(users, posts, comments, projects, messages, out.reply.user.id, db.users.docs[out.reply.user.id]);
      assert db.users.docs == users[out.reply.user.id := db.users.docs[out.reply.user.id]];
    }
  }

  method RunContact(db: Database, body: map<string, string>, now: nat) returns (out: Outcome)
    requires db.Valid()
    modifies db.messages
    ensures db.Valid()
  {
    ghost var users, posts, comments, projects, messages :=
      db.users.docs, db.posts.docs, db.comments.docs, db.projects.docs, db.messages.docs;
    out := ContactController.SaveContactMessage(db.messages, body, now);
    if out.Sent? {
      ghost var id: Id :| id !in messages && db.messages.docs ==
        messages[id := Message(body["name"], body["email"], body["message"], now)];
      MessageAdded(users, posts, comments, projects, messages, id, db.messages.docs[id]);
    }
  }

  /** Runs the handler of `action` for `caller`, the `req.user` the guards left. */
  method Dispatch(db: Database, action: Action, caller: Option<Account>, body: map<string, string>,
                  env: Env, now: nat) returns (out: Outcome)
    requires db.Valid()
    requires NeedsLogin(action) ==> caller.Some? && StoredCaller(db.users.docs, caller.value)
    requires NeedsAdmin(action) ==> caller.value.role == RoleAdmin
    modifies db.users, db.posts, db.comments, db.projects, db.messages
    ensures db.Valid()
    ensures CommentsKept(old(db.comments.docs), db.comments.docs, action)
  {
    if action.ListPosts? || action.ShowPost? || action.CreatePost? || action.UpdatePost? ||
       action.DeletePost? || action.ListComments? || action.AddComment? {
      out := DispatchBlog(db, action, caller, body, now);
    } else {
      ghost var comments := db.comments.docs;
      out := DispatchOther(db, action, caller, body, env, now);
      assert db.comments.docs == comments;
    }
  }

  /** The handlers mounted under /api/blog, posts and comments. */
  method DispatchBlog(db: Database, action: Action, caller: Option<Account>, body: map<string, string>,
                      now: nat) returns (out: Outcome)
    requires db.Valid()
    requires action.ListPosts? || action.ShowPost? || action.CreatePost? || action.UpdatePost? ||
             action.DeletePost? || action.ListComments? || action.AddComment?
    requires NeedsLogin(action) ==> caller.Some? && StoredCaller(db.users.docs, caller.value)
    requires NeedsAdmin(action) ==> caller.value.role == RoleAdmin
    modifies db.posts, db.comments
    ensures db.Valid()
    ensures CommentsKept(old(db.comments.docs), db.comments.docs, action)
  {
    match action {
      case ListPosts => out := BlogController.GetBlogPosts(db.posts);
      case ShowPost(id) => out := BlogController.GetBlogPostById(db.posts.docs, id);
      case CreatePost => out := RunCreatePost(db, caller.value, body, now);
      case UpdatePost(id) => out := RunUpdatePost(db, caller.value, id, body);
      case DeletePost(id) => out := RunDeletePost(db, caller.value, id);
      case ListComments(postId) => out := CommentController.GetCommentsForPost(db.posts, db.comments, postId);
      case AddComment(postId) => out := RunAddComment(db, caller.value, postId, body);
    }
  }

  /** The handlers mounted under /api/projects, /api/users and /api/contact,
      none of which touches posts or comments. */
  method DispatchOther(db: Database, action: Action, caller: Option<Account>, body: map<string, string>,
                       env: Env, now: nat) returns (out: Outcome)
    requires db.Valid()
    requires !(action.ListPosts? || action.ShowPost? || action.CreatePost? || action.UpdatePost? ||
               action.DeletePost? || action.ListComments? || action.AddComment?)
    requires NeedsLogin(action) ==> caller.Some? && StoredCaller(db.users.docs, caller.value)
    requires NeedsAdmin(action) ==> caller.value.role == RoleAdmin
    modifies db.users, db.projects, db.messages
    ensures db.Valid()
  {
    match action {
      case ListProjects => out := ProjectController.GetProjects(db.projects);
      case ShowProject(id) => out := ProjectController.GetProjectById(db.projects.docs, id);
      case CreateProject => out := RunCreateProject(db, caller.value, body);
      case UpdateProject(id) => out := RunUpdateProject(db, id, body);
      case DeleteProject(id) => out := RunDeleteProject(db, id);
      case Register => out := RunRegister(db, body, env);
      case Login => out := UserController.LoginUser(db.users, body, env);
      case SendMessage => out := RunContact(db, body, now);
    }
  }

  // ------------------------------------------------------------------
  // One request, end to end.
  // ------------------------------------------------------------------

  datatype Request = Request(verb: Verb, path: ApiPath, body: map<string, string>)

  /** What the client receives. `NoRoute` is Express's own 404 for a
      request no router matches. */
  datatype Response = Json(status: int, reply: Reply) | ErrorJson(error: ErrorReply) | NoRoute

  /** A handler's outcome as the client sees it: a thrown error goes through
      the error handler and is never reported with 200. */
  function Respond(out: Outcome, env: Env): (r: Response)
    ensures out.Sent? ==> r == Json(out.status, out.reply)
    ensures out.Thrown? ==> r.ErrorJson? && r.error.status != StatusOk && r.error.error == out.failure
    ensures out.Thrown? && out.status != StatusOk ==> r.error.status == out.status
  {
    match out
    case Sent(status, reply) => Json(status, reply)
    case Thrown(status, failure) => ErrorJson(ErrorHandler(status, failure, env))
  }

  /** Serves one request at time `now`: the matched route's guards, then its
      handler, then the error handler for anything thrown. The store
      invariant always holds afterwards. A request for an admin-only
      handler from anyone but an authenticated administrator, or a comment
      from an unauthenticated client, ends in 401 or 403 and changes nothing. */
  method Serve(db: Database, req: Request, ex: Exchange, env: Env, now: nat) returns (resp: Response)
    requires db.Valid()
    requires ex.user == None && ex.status == StatusOk
    modifies db.users, db.posts, db.comments, db.projects, db.messages, ex
    ensures db.Valid()
    ensures RouteOf(req.verb, req.path).None? ==> resp == NoRoute && db.Unchanged()
    ensures RouteOf(req.verb, req.path).Some? ==>
      CommentsKept(old(db.comments.docs), db.comments.docs, RouteOf(req.verb, req.path).value.action)
    ensures var a := Auth.Authenticate(ex.authorization, old(db.users.docs), env.verify);
      var route := RouteOf(req.verb, req.path);
      route.Some? && NeedsAdmin(route.value.action) && !(a.Authenticated? && a.account.role == RoleAdmin) ==>
        resp.ErrorJson? && (resp.error.status == StatusUnauthorized || resp.error.status == StatusForbidden) &&
        db.Unchanged()
    ensures var a := Auth.Authenticate(ex.authorization, old(db.users.docs), env.verify);
      var route := RouteOf(req.verb, req.path);
      route.Some? && route.value.action.AddComment? && !a.Authenticated? ==>
        resp.ErrorJson? && resp.error.status == StatusUnauthorized && db.Unchanged()
  {
    var route := RouteOf(req.verb, req.path);
    if route.None? {
      return NoRoute;
    }
    var guards, action := route.value.guards, route.value.action;
    RouteGuards(req.verb, req.path);
    ghost var auth := Auth.Authenticate(ex.authorization, db.users.docs, env.verify);
    ProtectThenAdmin(None, auth);
    ProtectOnly(None, auth);
    var step := RunGuards(guards, ex, db.users, env.verify);
    if step.Halt? {
      return ErrorJson(ErrorHandler(ex.status, step.failure, env));
    }
    var out := Dispatch(db, action, ex.user, req.body, env, now);
    resp := Respond(out, env);
  }
}
