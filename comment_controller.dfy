/** The comment handlers, mounted under a post. */
module CommentController {
  import opened Common
  import opened Store
  import opened UserModel
  import opened BlogPostModel
  import opened CommentModel
  import opened Http

  const MsgPostNotFound: string := "文章未找到"
  const MsgBodyRequired: string := "评论内容不能为空"
  const MsgCannotComment: string := "文章未找到，无法发表评论"

  /** `getCommentsForPost`: 404 for a missing post; otherwise exactly the
      comments on that post, each once, in increasing id order (the order the model fixes for an unsorted `find`). */
  function GetCommentsForPost(posts: Collection<Post>, comments: Collection<Comment>, postId: Id): (out: Outcome)
    reads posts, comments
    requires comments.Valid()
    ensures postId !in posts.docs ==> out == Thrown(StatusNotFound, Raised(MsgPostNotFound))
    ensures postId in posts.docs ==>
      out.Sent? && out.status == StatusOk && out.reply.CommentList? &&
      var r := out.reply.comments;
      (forall i :: 0 <= i < |r| ==>
         r[i].fields.post == postId && r[i].id in comments.docs && comments.docs[r[i].id] == r[i].fields) &&
      (forall id :: id in comments.docs && comments.docs[id].post == postId ==> Doc(id, comments.docs[id]) in r) &&
      (forall i, j :: 0 <= i < j < |r| ==> r[i].id < r[j].id)
  {
    if postId !in posts.docs then Thrown(StatusNotFound, Raised(MsgPostNotFound))
    else Sent(StatusOk, CommentList(Select(comments.All(), (c: Comment) => c.post == postId)))
  }

  /** `createComment` on post `postId` for the authenticated `caller`. An
      empty body is refused with 400 before the post is looked up, a missing
      post gives 404; otherwise exactly one comment is stored. The post store
      is never written. */
  method CreateComment(posts: Collection<Post>, comments: Collection<Comment>, caller: Account,
                       postId: Id, body: map<string, string>)
    returns (out: Outcome)
    requires comments.Valid()
    modifies comments
    ensures comments.Valid()
    ensures var text := FieldOf(body, "body");
      if !Truthy(text) then
        out == Thrown(StatusBadRequest, Raised(MsgBodyRequired)) && comments.docs == old(comments.docs)
      else if postId !in posts.docs then
        out == Thrown(StatusNotFound, Raised(MsgCannotComment)) && comments.docs == old(comments.docs)
      else
        out.Sent? && out.status == StatusCreated && out.reply.CommentDoc? &&
        var d := out.reply.comment;
        d.id !in old(comments.docs) && d.fields == Comment(text.value, postId, caller.id) &&
        comments.docs == old(comments.docs)[d.id := d.fields] && CommentModel.Violations(d.fields) == {}
  {
    var text := FieldOf(body, "body");
    if !Truthy(text) {
      return Thrown(StatusBadRequest, Raised(MsgBodyRequired));
    }
    if postId !in posts.docs {
      return Thrown(StatusNotFound, Raised(MsgCannotComment));
    }
    var comment := Comment(text.value, postId, caller.id);
    var id := comments.Insert(comment);
    return Sent(StatusCreated, CommentDoc(Doc(id, comment)));
  }
}
