/** The BlogPost schema and its document-level `deleteOne` hook, which removes
    the post's comments before the post itself. */
module BlogPostModel {
  import opened Common
  import opened Store
  import opened CommentModel

  /** A stored post. `createdAt` is set from the clock on create. */
  datatype Post = Post(title: string, content: string, author: Id, createdAt: nat)

  /** Every validator of the schema that `p` fails. The author reference is
      always present in the model, so only the two text fields can be missing. */
  function Violations(p: Post): (r: set<Violation>)
    ensures Required("title") in r <==> p.title == ""
    ensures Required("content") in r <==> p.content == ""
    ensures r <= {Required("title"), Required("content")}
  {
    (if p.title == "" then {Required("title")} else {}) +
    (if p.content == "" then {Required("content")} else {})
  }

  /** The comment store after `Comment.deleteMany({ post: postId })`. */
  function AfterCascade(comments: map<Id, Comment>, postId: Id): (r: map<Id, Comment>)
    ensures forall id :: id in r ==> id in comments && r[id] == comments[id]
    ensures forall id :: id in r ==> r[id].post != postId
    ensures forall id :: id in comments && comments[id].post != postId ==> id in r
  {
    map id | id in comments && comments[id].post != postId :: comments[id]
  }

  /** Removing a post's comments and then the post leaves no comment pointing
      at a missing post, provided none did before. */
  lemma CascadeKeepsReferences(posts: map<Id, Post>, comments: map<Id, Comment>, postId: Id)
    requires forall id :: id in comments ==> comments[id].post in posts
    ensures var after := AfterCascade(comments, postId);
      forall id :: id in after ==> after[id].post in posts - {postId}
  {
  }

  /** `post.deleteOne()` on a stored post: the pre-deleteOne hook, registered
      for document deletes, runs `deleteMany` on the comments first; then the
      post is removed. */
  method DeleteOne(posts: Collection<Post>, comments: Collection<Comment>, id: Id)
    requires posts.Valid() && comments.Valid()
    modifies posts, comments
    ensures posts.Valid() && comments.Valid()
    ensures comments.docs == AfterCascade(old(comments.docs), id)
    ensures posts.docs == old(posts.docs) - {id}
  {
    comments.RemoveWhere((c: Comment) => c.post == id);
    posts.Remove(id);
  }
}
