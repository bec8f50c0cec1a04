/** Registration and login. */
module UserController {
  import opened Common
  import opened Store
  import opened UserModel
  import opened Http

  const MsgFillAllFields: string := "请填写所有字段"
  const MsgEmailTaken: string := "该邮箱已被注册"
  const MsgCredentialsRequired: string := "请输入邮箱和密码"
  const MsgBadCredentials: string := "无效的邮箱或密码"

  /** The `user` object of a session reply: the password is never part of it. */
  function ProfileOf(id: Id, u: User): Profile {
    Profile(id, u.username, u.email, u.role)
  }

  /** `User.findOne({ email })` */
  function FindByEmail(users: Collection<User>, email: string): (r: Option<Doc<User>>)
    reads users
    requires users.Valid()
    ensures r.None? <==> forall id :: id in users.docs ==> users.docs[id].email != email
    ensures r.Some? ==> r.value.id in users.docs && users.docs[r.value.id] == r.value.fields &&
                        r.value.fields.email == email
  {
    var all := users.All();
    var r := FindFirst(all, (u: User) => u.email == email);
    assert r.None? ==> forall id :: id in users.docs ==> users.docs[id].email != email by {
      if r.None? {
        forall id | id in users.docs ensures users.docs[id].email != email {
          var k :| 0 <= k < |all| && all[k] == Doc(id, users.docs[id]);
        }
      }
    }
    r
  }

  /** `registerUser`. Missing fields: 400. An e-mail already stored: 400.
      Otherwise the document is validated on the plaintext password, then the
      pre-save hook hashes it, then the unique indexes are checked; either of
      the last two failing raises while the status is still 200. A username
      taken by another user is caught only by the index; the e-mail index is
      never reached. On success one user with role 'user' is stored and the
      reply carries a token for the new id and no password. */
  method RegisterUser(users: Collection<User>, body: map<string, string>, env: Env) returns (out: Outcome)
    requires users.Valid()
    modifies users
    ensures users.Valid()
    ensures ValidUsers(old(users.docs)) ==> ValidUsers(users.docs)
    ensures var username, email, password := FieldOf(body, "username"), FieldOf(body, "email"), FieldOf(body, "password");
      if !Truthy(username) || !Truthy(email) || !Truthy(password) then
        out == Thrown(StatusBadRequest, Raised(MsgFillAllFields)) && users.docs == old(users.docs)
      else if exists id :: id in old(users.docs) && old(users.docs)[id].email == email.value then
        out == Thrown(StatusBadRequest, Raised(MsgEmailTaken)) && users.docs == old(users.docs)
      else
        var candidate := User(username.value, email.value, password.value, RoleUser);
        var stored := candidate.(password := env.hash(password.value));
        if Violations(candidate) != {} then
          out == Thrown(StatusOk, Invalid(Violations(candidate))) && users.docs == old(users.docs)
        else if exists id :: id in old(users.docs) && old(users.docs)[id].username == username.value then
          out == Thrown(StatusOk, DuplicateKey("username")) && users.docs == old(users.docs)
        else
          out.Sent? && out.status == StatusCreated && out.reply.Session? &&
          var id := out.reply.user.id;
          id !in old(users.docs) && users.docs == old(users.docs)[id := stored] &&
          out.reply == Session(env.sign(id), ProfileOf(id, stored))
  {
    var username, email, password := FieldOf(body, "username"), FieldOf(body, "email"), FieldOf(body, "password");
    if !Truthy(username) || !Truthy(email) || !Truthy(password) {
      return Thrown(StatusBadRequest, Raised(MsgFillAllFields));
    }
    var userExists := FindByEmail(users, email.value);
    if userExists.Some? {
      return Thrown(StatusBadRequest, Raised(MsgEmailTaken));
    }
    var saved := Create(users, username.value, email.value, password.value, env.hash);
    if saved.SaveFailed? {
      return Thrown(StatusOk, saved.failure);
    }
    var id, stored := saved.id, saved.user;
    return Sent(StatusCreated, Session(env.sign(id), ProfileOf(id, stored)));
  }

  /** `loginUser`. Missing fields: 400. Otherwise a session exactly when a
      stored user has that e-mail and the password matches its hash; an
      unknown e-mail and a wrong password get the same 401. The store is only
      read. */
  method LoginUser(users: Collection<User>, body: map<string, string>, env: Env) returns (out: Outcome)
    requires users.Valid() && UniqueEmails(users.docs)
    ensures var email, password := FieldOf(body, "email"), FieldOf(body, "password");
      if !Truthy(email) || !Truthy(password) then
        out == Thrown(StatusBadRequest, Raised(MsgCredentialsRequired))
      else
        (out.Sent? <==> exists id :: id in users.docs && users.docs[id].email == email.value &&
                                     env.hash(password.value) == users.docs[id].password) &&
        (out.Sent? ==>
           (out.status == StatusOk && out.reply.Session? &&
            var id := out.reply.user.id;
            id in users.docs && users.docs[id].email == email.value &&
            out.reply == Session(env.sign(id), ProfileOf(id, users.docs[id])))) &&
        (out.Thrown? ==> out == Thrown(StatusUnauthorized, Raised(MsgBadCredentials)))
  {
    var email, password := FieldOf(body, "email"), FieldOf(body, "password");
    if !Truthy(email) || !Truthy(password) {
      return Thrown(StatusBadRequest, Raised(MsgCredentialsRequired));
    }
    var found := FindByEmail(users, email.value);
    if found.Some? {
      var doc := new UserDocument.Loaded(found.value.fields);
      if doc.MatchPassword(password.value, env.hash) {
        var id := found.value.id;
        return Sent(StatusOk, Session(env.sign(id), ProfileOf(id, found.value.fields)));
      }
    }
    return Thrown(StatusUnauthorized, Raised(MsgBadCredentials));
  }
}
