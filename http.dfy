/** The request/response pair that the middleware and handlers share, and the
    values a handler ends with: a JSON reply sent with a status, or an error
    thrown while `res.statusCode` has some value. */
module Http {
  import opened Common
  import opened Store
  import opened UserModel
  import opened BlogPostModel
  import opened CommentModel
  import opened ProjectModel

  /** The `user` object of a session reply: `{ id, name, email, role }`. */
  datatype Profile = Profile(id: Id, name: string, email: string, role: string)

  /** JSON bodies the handlers send. Populated references are left as ids. */
  datatype Reply =
    | PostDoc(post: Doc<Post>)
    | PostList(posts: seq<Doc<Post>>)
    | CommentDoc(comment: Doc<Comment>)
    | CommentList(comments: seq<Doc<Comment>>)
    | ProjectDoc(project: Doc<Project>)
    | ProjectList(projects: seq<Doc<Project>>)
    | Session(token: string, user: Profile)
    | Notice(message: string)
    | Acknowledged(success: bool, message: string)

  /** How a handler ends: `res.status(s).json(reply)`, or a throw while the
      response status is `status` (200 when the handler did not set one). */
  datatype Outcome =
    | Sent(status: int, reply: Reply)
    | Thrown(status: int, failure: Failure)

  /** How a middleware ends: it called `next()`, or it threw. */
  datatype Step = Next | Halt(failure: Failure)

  /** The parts of `req` and `res` that the middleware reads and writes. */
  class Exchange {
    /** `req.headers.authorization` */
    const authorization: Option<string>
    /** `req.user`, set by `protect` */
    var user: Option<Account>
    /** `res.statusCode` */
    var status: int
    /** How many times the current middleware has called `next()`. */
    var nextCalls: nat

    constructor (authorization: Option<string>)
      ensures this.authorization == authorization
      ensures user == None && status == StatusOk && nextCalls == 0
    {
      this.authorization := authorization;
      user := None;
      status := StatusOk;
      nextCalls := 0;
    }
  }
}
