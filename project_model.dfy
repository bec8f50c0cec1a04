/** The Project schema: a title and a description that are required, three
    optional links and the admin who created the project. */
module ProjectModel {
  import opened Common

  datatype Project = Project(
    title: string,
    description: string,
    imageUrl: Option<string>,
    repoUrl: Option<string>,
    liveUrl: Option<string>,
    user: Id
  )

  /** Every validator of the schema that `p` fails. */
  function Violations(p: Project): (r: set<Violation>)
    ensures Required("title") in r <==> p.title == ""
    ensures Required("description") in r <==> p.description == ""
    ensures r <= {Required("title"), Required("description")}
  {
    (if p.title == "" then {Required("title")} else {}) +
    (if p.description == "" then {Required("description")} else {})
  }
}
