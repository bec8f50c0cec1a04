/** The blog post handlers: list, read, create, update and delete. */
module BlogController {
  import opened Common
  import opened Store
  import opened UserModel
  import opened BlogPostModel
  import opened CommentModel
  import opened Http

  const MsgTitleContentRequired: string := "标题和内容不能为空"
  const MsgPostNotFound: string := "文章未找到"
  const MsgNoRightToUpdate: string := "用户无权限更新此文章"
  const MsgNoRightToDelete: string := "用户无权限删除此文章"
  const MsgPostDeleted: string := "文章已成功删除"

  // ------------------------------------------------------------------
  // getBlogPosts: `find({}).sort({ createdAt: -1 })`
  // ------------------------------------------------------------------

  predicate NewestFirst(s: seq<Doc<Post>>) {
    forall i, j :: 0 <= i < j < |s| ==> s[i].fields.createdAt >= s[j].fields.createdAt
  }

  /** A listing stays newest first when a post no older than any of its
      posts is put in front. */
  lemma PrependNewest(x: Doc<Post>, s: seq<Doc<Post>>)
    requires NewestFirst(s)
    requires forall i :: 0 <= i < |s| ==> s[i].fields.createdAt <= x.fields.createdAt
    ensures NewestFirst([x] + s)
  {
    var r := [x] + s;
    forall i, j | 0 <= i < j < |r| ensures r[i].fields.createdAt >= r[j].fields.createdAt {
      assert r[j] == s[j - 1];
      if i > 0 {
        assert r[i] == s[i - 1];
      }
    }
  }

  /** Every post of a rearrangement of `s` plus `d` is `d` or a post of `s`;
      when all of them are at most `bound`, so is each post of `r`. */
  lemma BoundedAfterInsert(d: Doc<Post>, s: seq<Doc<Post>>, r: seq<Doc<Post>>, bound: nat)
    requires multiset(r) == multiset(s) + multiset{d}
    requires d.fields.createdAt <= bound
    requires forall i :: 0 <= i < |s| ==> s[i].fields.createdAt <= bound
    ensures forall i :: 0 <= i < |r| ==> r[i].fields.createdAt <= bound
  {
    forall i | 0 <= i < |r| ensures r[i].fields.createdAt <= bound {
      assert r[i] in multiset(r);
      if r[i] != d {
        assert r[i] in multiset(s);
        var k :| 0 <= k < |s| && s[k] == r[i];
      }
    }
  }

  /** Puts `d` into a newest-first listing. */
  function InsertByDate(d: Doc<Post>, s: seq<Doc<Post>>): (r: seq<Doc<Post>>)
    requires NewestFirst(s)
    ensures NewestFirst(r)
    ensures multiset(r) == multiset(s) + multiset{d}
  {
    if s == [] then [d]
    else if d.fields.createdAt >= s[0].fields.createdAt then
      assert forall i :: 0 <= i < |s| ==> s[i].fields.createdAt <= s[0].fields.createdAt;
      PrependNewest(d, s);
      [d] + s
    else
      var rest := InsertByDate(d, s[1..]);
      assert s == [s[0]] + s[1..];
      assert forall i :: 0 <= i < |s[1..]| ==> s[1..][i].fields.createdAt <= s[0].fields.createdAt;
      BoundedAfterInsert(d, s[1..], rest, s[0].fields.createdAt);
      PrependNewest(s[0], rest);
      [s[0]] + rest
  }

  /** A newest-first rearrangement of `s`. Posts with equal creation times
      come in an order the database does not fix; this one is one of them. */
  function SortNewestFirst(s: seq<Doc<Post>>): (r: seq<Doc<Post>>)
    ensures NewestFirst(r)
    ensures multiset(r) == multiset(s)
  {
    if s == [] then []
    else
      assert s == [s[0]] + s[1..];
      InsertByDate(s[0], SortNewestFirst(s[1..]))
  }

  /** Two rearrangements of each other hold the same posts. */
  lemma SameMembers(a: seq<Doc<Post>>, b: seq<Doc<Post>>)
    requires multiset(a) == multiset(b)
    ensures forall i :: 0 <= i < |b| ==> b[i] in a
    ensures forall i :: 0 <= i < |a| ==> a[i] in b
  {
    forall i | 0 <= i < |b| ensures b[i] in a {
      assert b[i] in multiset(b);
    }
    forall i | 0 <= i < |a| ensures a[i] in b {
      assert a[i] in multiset(a);
    }
  }

  /** `getBlogPosts`: every stored post exactly once, newest first. */
  function GetBlogPosts(posts: Collection<Post>): (out: Outcome)
    reads posts
    requires posts.Valid()
    ensures out.Sent? && out.status == StatusOk && out.reply.PostList?
    ensures NewestFirst(out.reply.posts)
    ensures multiset(out.reply.posts) == multiset(posts.All())
    ensures forall i :: 0 <= i < |out.reply.posts| ==>
              var d := out.reply.posts[i]; d.id in posts.docs && posts.docs[d.id] == d.fields
    ensures forall id :: id in posts.docs ==> Doc(id, posts.docs[id]) in out.reply.posts
  {
    var all := posts.All();
    var sorted := SortNewestFirst(all);
    SameMembers(all, sorted);
    Sent(StatusOk, PostList(sorted))
  }

  // ------------------------------------------------------------------
  // getBlogPostById
  // ------------------------------------------------------------------

  /** `getBlogPostById`: the post, or 404 exactly when no post has that id. */
  function GetBlogPostById(posts: map<Id, Post>, id: Id): (out: Outcome)
    ensures out.Thrown? <==> id !in posts
    ensures out.Thrown? ==> out == Thrown(StatusNotFound, Raised(MsgPostNotFound))
    ensures out.Sent? ==> out == Sent(StatusOk, PostDoc(Doc(id, posts[id])))
  {
    if id in posts then Sent(StatusOk, PostDoc(Doc(id, posts[id])))
    else Thrown(StatusNotFound, Raised(MsgPostNotFound))
  }

  // ------------------------------------------------------------------
  // createBlogPost
  // ------------------------------------------------------------------

  /** `createBlogPost` for the authenticated `caller` at time `now`. Both
      fields present: one new post, written by the caller, answered with 201;
      either missing: 400 and nothing stored. The new post always passes the
      schema, so `create` never rejects it. */
  method CreateBlogPost(posts: Collection<Post>, caller: Account, body: map<string, string>, now: nat)
    returns (out: Outcome)
    requires posts.Valid()
    modifies posts
    ensures posts.Valid()
    ensures var title, content := FieldOf(body, "title"), FieldOf(body, "content");
      if !Truthy(title) || !Truthy(content) then
        out == Thrown(StatusBadRequest, Raised(MsgTitleContentRequired)) && posts.docs == old(posts.docs)
      else
        out.Sent? && out.status == StatusCreated && out.reply.PostDoc? &&
        var d := out.reply.post;
        d.id !in old(posts.docs) && d.fields == Post(title.value, content.value, caller.id, now) &&
        posts.docs == old(posts.docs)[d.id := d.fields] && BlogPostModel.Violations(d.fields) == {}
  {
    var title, content := FieldOf(body, "title"), FieldOf(body, "content");
    if !Truthy(title) || !Truthy(content) {
      return Thrown(StatusBadRequest, Raised(MsgTitleContentRequired));
    }
    var post := Post(title.value, content.value, caller.id, now);
    var id := posts.Insert(post);
    return Sent(StatusCreated, PostDoc(Doc(id, post)));
  }

  // ------------------------------------------------------------------
  // updateBlogPost / deleteBlogPost
  // ------------------------------------------------------------------

  /** The handler's own permission rule: an administrator, or the author. */
  predicate MayModify(caller: Account, post: Post) {
    caller.role == RoleAdmin || post.author == caller.id
  }

  /** `post.title = title || post.title; post.content = content || post.content`:
      a present, non-empty value replaces the field, anything else keeps it. */
  function ApplyEdit(p: Post, title: Field, content: Field): (r: Post)
    ensures r.author == p.author && r.createdAt == p.createdAt
    ensures r.title == (if Truthy(title) then title.value else p.title)
    ensures r.content == (if Truthy(content) then content.value else p.content)
  {
    p.(title := if Truthy(title) then title.value else p.title,
       content := if Truthy(content) then content.value else p.content)
  }

  /** Submitting the same edit twice changes nothing more. */
  lemma ApplyEditIdempotent(p: Post, title: Field, content: Field)
    ensures ApplyEdit(ApplyEdit(p, title, content), title, content) == ApplyEdit(p, title, content)
  {
  }

  /** An edit with neither field leaves the post as it was. */
  lemma EmptyEditKeepsPost(p: Post)
    ensures ApplyEdit(p, None, None) == p && ApplyEdit(p, Some(""), Some("")) == p
  {
  }

  /** An edit never turns a valid post into one the schema rejects. */
  lemma ApplyEditKeepsValid(p: Post, title: Field, content: Field)
    requires BlogPostModel.Violations(p) == {}
    ensures BlogPostModel.Violations(ApplyEdit(p, title, content)) == {}
  {
  }

  /** `updateBlogPost` on post `id` for the authenticated `caller`: 404 when
      there is no such post, decided before any permission check; 403 when the
      caller is neither an administrator nor the author; otherwise the edited
      post is saved, its author and creation time untouched. */
  method UpdateBlogPost(posts: Collection<Post>, caller: Account, id: Id, body: map<string, string>)
    returns (out: Outcome)
    requires posts.Valid()
    modifies posts
    ensures posts.Valid()
    ensures id !in old(posts.docs) ==>
      out == Thrown(StatusNotFound, Raised(MsgPostNotFound)) && posts.docs == old(posts.docs)
    ensures id in old(posts.docs) && !MayModify(caller, old(posts.docs)[id]) ==>
      out == Thrown(StatusForbidden, Raised(MsgNoRightToUpdate)) && posts.docs == old(posts.docs)
    ensures id in old(posts.docs) && MayModify(caller, old(posts.docs)[id]) ==>
      var edited := ApplyEdit(old(posts.docs)[id], FieldOf(body, "title"), FieldOf(body, "content"));
      if BlogPostModel.Violations(edited) == {} then
        out == Sent(StatusOk, PostDoc(Doc(id, edited))) && posts.docs == old(posts.docs)[id := edited]
      else
        out == Thrown(StatusOk, Invalid(BlogPostModel.Violations(edited))) && posts.docs == old(posts.docs)
  {
    if id !in posts.docs {
      return Thrown(StatusNotFound, Raised(MsgPostNotFound));
    }
    var post := posts.docs[id];
    var isAdmin := caller.role == RoleAdmin;
    var isAuthor := post.author == caller.id;
    if !isAdmin && !isAuthor {
      return Thrown(StatusForbidden, Raised(MsgNoRightToUpdate));
    }
    var title, content := FieldOf(body, "title"), FieldOf(body, "content");
    post := post.(title := if Truthy(title) then title.value else post.title);
    post := post.(content := if Truthy(content) then content.value else post.content);
    // post.save() validates before writing
    if BlogPostModel.Violations(post) != {} {
      return Thrown(StatusOk, Invalid(BlogPostModel.Violations(post)));
    }
    posts.Replace(id, post);
    return Sent(StatusOk, PostDoc(Doc(id, post)));
  }

  /** `deleteBlogPost` on post `id` for the authenticated `caller`: 404 and 403
      as for updates; otherwise the post and, through the deleteOne hook,
      every comment on it are removed, and nothing else. */
  method DeleteBlogPost(posts: Collection<Post>, comments: Collection<Comment>, caller: Account, id: Id)
    returns (out: Outcome)
    requires posts.Valid() && comments.Valid()
    modifies posts, comments
    ensures posts.Valid() && comments.Valid()
    ensures id !in old(posts.docs) ==>
      out == Thrown(StatusNotFound, Raised(MsgPostNotFound)) &&
      posts.docs == old(posts.docs) && comments.docs == old(comments.docs)
    ensures id in old(posts.docs) && !MayModify(caller, old(posts.docs)[id]) ==>
      out == Thrown(StatusForbidden, Raised(MsgNoRightToDelete)) &&
      posts.docs == old(posts.docs) && comments.docs == old(comments.docs)
    ensures id in old(posts.docs) && MayModify(caller, old(posts.docs)[id]) ==>
      out == Sent(StatusOk, Notice(MsgPostDeleted)) &&
      posts.docs == old(posts.docs) - {id} && comments.docs == AfterCascade(old(comments.docs), id)
  {
    if id !in posts.docs {
      return Thrown(StatusNotFound, Raised(MsgPostNotFound));
    }
    var post := posts.docs[id];
    var isAdmin := caller.role == RoleAdmin;
    var isAuthor := post.author == caller.id;
    if !isAdmin && !isAuthor {
      return Thrown(StatusForbidden, Raised(MsgNoRightToDelete));
    }
    DeleteOne(posts, comments, id);
    return Sent(StatusOk, Notice(MsgPostDeleted));
  }
}
