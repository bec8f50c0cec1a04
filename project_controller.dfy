/** The portfolio project handlers. None of them looks at who created a project. */
module ProjectController {
  import opened Common
  import opened Store
  import opened UserModel
  import opened ProjectModel
  import opened Http

  const MsgTitleDescriptionRequired: string := "标题和描述是必填项"
  const MsgProjectNotFound: string := "项目未找到"
  const MsgProjectDeleted: string := "项目已成功删除"

  /** `getProjects`: every stored project, each once, in increasing id order (the order the model fixes for an unsorted `find`). */
  function GetProjects(projects: Collection<Project>): (out: Outcome)
    reads projects
    requires projects.Valid()
    ensures out.Sent? && out.status == StatusOk && out.reply.ProjectList?
    ensures forall i :: 0 <= i < |out.reply.projects| ==>
              var d := out.reply.projects[i]; d.id in projects.docs && projects.docs[d.id] == d.fields
    ensures forall id :: id in projects.docs ==> Doc(id, projects.docs[id]) in out.reply.projects
    ensures forall i, j :: 0 <= i < j < |out.reply.projects| ==> out.reply.projects[i].id < out.reply.projects[j].id
  {
    Sent(StatusOk, ProjectList(projects.All()))
  }

  /** `getProjectById`: the project, or 404 exactly when there is none. */
  function GetProjectById(projects: map<Id, Project>, id: Id): (out: Outcome)
    ensures out.Thrown? <==> id !in projects
    ensures out.Thrown? ==> out == Thrown(StatusNotFound, Raised(MsgProjectNotFound))
    ensures out.Sent? ==> out == Sent(StatusOk, ProjectDoc(Doc(id, projects[id])))
  {
    if id in projects then Sent(StatusOk, ProjectDoc(Doc(id, projects[id])))
    else Thrown(StatusNotFound, Raised(MsgProjectNotFound))
  }

  /** `createProject` for the authenticated `caller`: 400 and nothing stored
      when the title or the description is missing; otherwise one project owned
      by the caller, with the links as submitted (absent ones stay absent). */
  method CreateProject(projects: Collection<Project>, caller: Account, body: map<string, string>)
    returns (out: Outcome)
    requires projects.Valid()
    modifies projects
    ensures projects.Valid()
    ensures var title, description := FieldOf(body, "title"), FieldOf(body, "description");
      if !Truthy(title) || !Truthy(description) then
        out == Thrown(StatusBadRequest, Raised(MsgTitleDescriptionRequired)) && projects.docs == old(projects.docs)
      else
        out.Sent? && out.status == StatusCreated && out.reply.ProjectDoc? &&
        var d := out.reply.project;
        d.id !in old(projects.docs) && projects.docs == old(projects.docs)[d.id := d.fields] &&
        d.fields == Project(title.value, description.value, FieldOf(body, "imageUrl"),
                            FieldOf(body, "repoUrl"), FieldOf(body, "liveUrl"), caller.id) &&
        ProjectModel.Violations(d.fields) == {}
  {
    var title, description := FieldOf(body, "title"), FieldOf(body, "description");
    if !Truthy(title) || !Truthy(description) {
      return Thrown(StatusBadRequest, Raised(MsgTitleDescriptionRequired));
    }
    var project := Project(title.value, description.value, FieldOf(body, "imageUrl"),
                           FieldOf(body, "repoUrl"), FieldOf(body, "liveUrl"), caller.id);
    var id := projects.Insert(project);
    return Sent(StatusCreated, ProjectDoc(Doc(id, project)));
  }

  /** The value `findByIdAndUpdate` writes to an optional link. */
  function PatchedLink(current: Option<string>, body: map<string, string>, key: string): Option<string> {
    if key in body then Some(body[key]) else current
  }

  /** `p` with the schema fields that the update body names overwritten. */
  function Patched(p: Project, body: map<string, string>): (r: Project)
    ensures r.user == p.user
    ensures r.title == (if "title" in body then body["title"] else p.title)
    ensures r.description == (if "description" in body then body["description"] else p.description)
    ensures r.imageUrl == PatchedLink(p.imageUrl, body, "imageUrl")
    ensures r.repoUrl == PatchedLink(p.repoUrl, body, "repoUrl")
    ensures r.liveUrl == PatchedLink(p.liveUrl, body, "liveUrl")
  {
    Project(
      if "title" in body then body["title"] else p.title,
      if "description" in body then body["description"] else p.description,
      PatchedLink(p.imageUrl, body, "imageUrl"),
      PatchedLink(p.repoUrl, body, "repoUrl"),
      PatchedLink(p.liveUrl, body, "liveUrl"),
      p.user)
  }

  /** What `runValidators` rejects in an update body: it checks only the
      paths the update sets, so only a title or description set to "" fails. */
  function UpdateViolations(body: map<string, string>): (r: set<Violation>)
    ensures Required("title") in r <==> "title" in body && body["title"] == ""
    ensures Required("description") in r <==> "description" in body && body["description"] == ""
    ensures r <= {Required("title"), Required("description")}
  {
    (if "title" in body && body["title"] == "" then {Required("title")} else {}) +
    (if "description" in body && body["description"] == "" then {Required("description")} else {})
  }

  /** On a valid project, checking only the updated paths finds exactly what
      validating the whole updated project would find. */
  lemma UpdateViolationsOfValid(p: Project, body: map<string, string>)
    requires ProjectModel.Violations(p) == {}
    ensures UpdateViolations(body) == ProjectModel.Violations(Patched(p, body))
  {
    var a, b := UpdateViolations(body), ProjectModel.Violations(Patched(p, body));
    assert forall v :: v in a <==> v in b by {
      forall v ensures v in a <==> v in b {
        assert v in a ==> v == Required("title") || v == Required("description");
        assert v in b ==> v == Required("title") || v == Required("description");
      }
    }
  }

  /** `updateProject`: 404 when there is no such project; a title or
      description set to "" fails validation while the status is 200; otherwise
      the named fields are overwritten and the updated project is sent back.
      There is no owner or role check. */
  method UpdateProject(projects: Collection<Project>, id: Id, body: map<string, string>) returns (out: Outcome)
    requires projects.Valid()
    modifies projects
    ensures projects.Valid()
    ensures id !in old(projects.docs) ==>
      out == Thrown(StatusNotFound, Raised(MsgProjectNotFound)) && projects.docs == old(projects.docs)
    ensures id in old(projects.docs) && UpdateViolations(body) != {} ==>
      out == Thrown(StatusOk, Invalid(UpdateViolations(body))) && projects.docs == old(projects.docs)
    ensures id in old(projects.docs) && UpdateViolations(body) == {} ==>
      var updated := Patched(old(projects.docs)[id], body);
      out == Sent(StatusOk, ProjectDoc(Doc(id, updated))) && projects.docs == old(projects.docs)[id := updated]
  {
    if id !in projects.docs {
      return Thrown(StatusNotFound, Raised(MsgProjectNotFound));
    }
    var violations := UpdateViolations(body);
    if violations != {} {
      return Thrown(StatusOk, Invalid(violations));
    }
    var updated := Patched(projects.docs[id], body);
    projects.Replace(id, updated);
    return Sent(StatusOk, ProjectDoc(Doc(id, updated)));
  }

  /** `deleteProject`: 404 when there is no such project; otherwise that
      project alone is removed, whoever created it. */
  method DeleteProject(projects: Collection<Project>, id: Id) returns (out: Outcome)
    requires projects.Valid()
    modifies projects
    ensures projects.Valid()
    ensures id !in old(projects.docs) ==>
      out == Thrown(StatusNotFound, Raised(MsgProjectNotFound)) && projects.docs == old(projects.docs)
    ensures id in old(projects.docs) ==>
      out == Sent(StatusOk, Notice(MsgProjectDeleted)) && projects.docs == old(projects.docs) - {id}
  {
    if id !in projects.docs {
      return Thrown(StatusNotFound, Raised(MsgProjectNotFound));
    }
    projects.Remove(id);
    return Sent(StatusOk, Notice(MsgProjectDeleted));
  }
}
