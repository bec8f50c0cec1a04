/** The blog router, mounted at `/api/blog`. */
module BlogRoutes {
  import opened Common
  import opened UserModel
  import opened BlogPostModel
  import opened Routing
  import opened CommentRoutes
  import Auth = AuthMiddleware
  import BlogController

  /** Paths below `/api/blog`. */
  datatype BlogPath = BlogRoot | BlogItem(id: Id) | PostComments(postId: Id, rest: CommentPath)

  /** The blog router: the comment sub-router first, then `/` and `/:id`. */
  function BlogRoute(verb: Verb, path: BlogPath): (r: Option<Route>)
    ensures path.PostComments? ==> r == CommentRoute(path.postId, verb, path.rest)
    ensures !path.PostComments? && r.Some? ==> (r.value.guards == [] <==> verb == GET)
    ensures !path.PostComments? && r.Some? && verb != GET ==> r.value.guards == [Protect, Admin]
  {
    match path
    case PostComments(postId, rest) => CommentRoute(postId, verb, rest)
    case BlogRoot =>
      (match verb
       case GET => Some(Route([], ListPosts))
       case POST => Some(Route([Protect, Admin], CreatePost))
       case _ => None)
    case BlogItem(id) =>
      (match verb
       case GET => Some(Route([], ShowPost(id)))
       case PUT => Some(Route([Protect, Admin], UpdatePost(id)))
       case DELETE => Some(Route([Protect, Admin], DeletePost(id)))
       case _ => None)
  }

  /** Every route that creates, updates or deletes a post runs `protect`
      and then `admin`; every route that only reads a post runs nothing. */
  lemma BlogGuards(verb: Verb, path: BlogPath)
    requires BlogRoute(verb, path).Some?
    ensures var r := BlogRoute(verb, path).value;
      (r.action.CreatePost? || r.action.UpdatePost? || r.action.DeletePost? ==> r.guards == [Protect, Admin]) &&
      (r.action.ListPosts? || r.action.ShowPost? ==> r.guards == [])
  {
  }

  /** Routes put `admin` in front of update and delete, so the handler's
      author branch never grants anything: every caller that reaches the
      handler is an administrator, and an author who is not one is turned
      away with 403 before the handler runs. */
  lemma AuthorBranchUnreachable(header: Option<string>, users: map<Id, User>, verify: string -> Option<Id>,
                                user: Option<Account>, id: Id, post: Post)
    ensures forall verb :: verb == PUT || verb == DELETE ==>
      var r := BlogRoute(verb, BlogItem(id)).value;
      var v := RunChain(r.guards, user, Auth.Authenticate(header, users, verify));
      (v.Pass? ==> v.user.Some? && v.user.value.role == RoleAdmin && BlogController.MayModify(v.user.value, post)) &&
      (var a := Auth.Authenticate(header, users, verify);
       a.Authenticated? && a.account.role != RoleAdmin && post.author == a.account.id ==>
         BlogController.MayModify(a.account, post) && v == Stop(StatusForbidden, Raised(Auth.MsgNotAdmin)))
  {
    ProtectThenAdmin(user, Auth.Authenticate(header, users, verify));
    assert BlogRoute(PUT, BlogItem(id)).value.guards == [Protect, Admin];
    assert BlogRoute(DELETE, BlogItem(id)).value.guards == [Protect, Admin];
  }

  /** `createBlogPost` always runs for an administrator. */
  lemma CreateRunsForAdmin(header: Option<string>, users: map<Id, User>, verify: string -> Option<Id>,
                           user: Option<Account>)
    ensures var r := BlogRoute(POST, BlogRoot).value;
      var v := RunChain(r.guards, user, Auth.Authenticate(header, users, verify));
      r.action == CreatePost && (v.Pass? ==> v.user.Some? && v.user.value.role == RoleAdmin)
  {
    ProtectThenAdmin(user, Auth.Authenticate(header, users, verify));
    assert BlogRoute(POST, BlogRoot).value.guards == [Protect, Admin];
  }
}
