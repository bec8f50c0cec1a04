/** The comment router, mounted by the blog router under `/:postId/comments`
    with `mergeParams`, so that its handlers see the parent's `postId`. */
module CommentRoutes {
  import opened Common
  import opened Routing

  /** Paths below `/api/blog/:postId/comments`. */
  datatype CommentPath = CommentRoot

  /** The comment router for the post named by the parent path. */
  function CommentRoute(postId: Id, verb: Verb, path: CommentPath): (r: Option<Route>)
    ensures r.Some? <==> verb == GET || verb == POST
    ensures verb == GET ==> r == Some(Route([], ListComments(postId)))
    ensures verb == POST ==> r == Some(Route([Protect], AddComment(postId)))
  {
    match verb
    case GET => Some(Route([], ListComments(postId)))
    case POST => Some(Route([Protect], AddComment(postId)))
    case _ => None
  }

  /** The handlers act on the post of the parent path, and no route of the
      comment router lets a comment be changed or removed. */
  lemma CommentRoutesShape(postId: Id, verb: Verb, path: CommentPath)
    requires CommentRoute(postId, verb, path).Some?
    ensures var a := CommentRoute(postId, verb, path).value.action;
      (a == ListComments(postId) || a == AddComment(postId)) && verb != PUT && verb != DELETE
  {
  }
}
