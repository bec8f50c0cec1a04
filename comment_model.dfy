/** The Comment schema: a body, the post it belongs to and its author. */
module CommentModel {
  import opened Common

  datatype Comment = Comment(body: string, post: Id, author: Id)

  /** Every validator of the schema that `c` fails. The two references are
      always present in the model, so only the body can be missing. */
  function Violations(c: Comment): (r: set<Violation>)
    ensures r == {} <==> c.body != ""
    ensures r <= {Required("body")}
  {
    if c.body == "" then {Required("body")} else {}
  }
}
