/** The User schema: its validators, its unique indexes stated as invariants of
    the user store, the pre-save hook that hashes the password and the
    `matchPassword` instance method. */
module UserModel {
  import opened Common
  import opened Store
  import EmailPattern

  const RoleUser: string := "user"
  const RoleAdmin: string := "admin"

  /** The `enum` of the role path. */
  const Roles: set<string> := {RoleUser, RoleAdmin}

  /** The `minlength` of the password path. */
  const PasswordMinLength: nat := 6

  /** A stored user. `password` holds the hash once the document is saved. */
  datatype User = User(username: string, email: string, password: string, role: string)

  /** A user as a default query returns it: `select: false` keeps the password out. */
  datatype Account = Account(id: Id, username: string, email: string, role: string)

  /** `findById(id).select('-password')` on a stored user. */
  function PublicView(id: Id, u: User): Account {
    Account(id, u.username, u.email, u.role)
  }

  /** The validation errors of `u`: for each path, the first of its
      validators that fails, `required` coming first. So an empty password is
      reported as missing and not also as too short, and an empty role as
      missing and not also as outside the enum. */
  function Violations(u: User): (r: set<Violation>)
    ensures Required("username") in r <==> u.username == ""
    ensures Required("email") in r <==> u.email == ""
    ensures Mismatch("email") in r <==> !EmailPattern.MatchValidator(u.email)
    ensures Required("password") in r <==> u.password == ""
    ensures ShorterThan("password", PasswordMinLength) in r <==>
              u.password != "" && |u.password| < PasswordMinLength
    ensures Required("role") in r <==> u.role == ""
    ensures NotInEnum("role") in r <==> u.role != "" && u.role !in Roles
  {
    (if u.username == "" then {Required("username")} else {}) +
    EmailFailure(u.email) + PasswordFailure(u.password) + RoleFailure(u.role)
  }

  /** Validation reports at most one failure per path. */
  lemma FirstFailurePerPath(u: User)
    ensures OnePerPath(Violations(u))
  {
    var username: set<Violation> := if u.username == "" then {Required("username")} else {};
    assert FailuresOf(username, "username");
    FourPaths(username, EmailFailure(u.email), PasswordFailure(u.password), RoleFailure(u.role),
              "username", "email", "password", "role");
  }

  /** The e-mail path: `required`, then `match`. */
  function EmailFailure(email: string): (r: set<Violation>)
    ensures Required("email") in r <==> email == ""
    ensures Mismatch("email") in r <==> !EmailPattern.MatchValidator(email)
    ensures FailuresOf(r, "email")
  {
    if email == "" then {Required("email")}
    else if !EmailPattern.MatchValidator(email) then {Mismatch("email")}
    else {}
  }

  /** The password path: `required`, then `minlength`. */
  function PasswordFailure(password: string): (r: set<Violation>)
    ensures Required("password") in r <==> password == ""
    ensures ShorterThan("password", PasswordMinLength) in r <==> password != "" && |password| < PasswordMinLength
    ensures FailuresOf(r, "password")
  {
    if password == "" then {Required("password")}
    else if |password| < PasswordMinLength then {ShorterThan("password", PasswordMinLength)}
    else {}
  }

  /** The role path: `required`, then `enum`. */
  function RoleFailure(role: string): (r: set<Violation>)
    ensures Required("role") in r <==> role == ""
    ensures NotInEnum("role") in r <==> role != "" && role !in Roles
    ensures FailuresOf(r, "role")
  {
    if role == "" then {Required("role")}
    else if role !in Roles then {NotInEnum("role")}
    else {}
  }

  /** What the schema promises of an accepted user, with the e-mail rule
      read as the regular expression itself. */
  ghost predicate Accepted(u: User) {
    u.username != "" && EmailPattern.Matches(u.email) &&
    |u.password| >= PasswordMinLength && u.role in Roles
  }

  /** Validation passes exactly on the users the schema describes. */
  lemma ValidationIff(u: User)
    ensures Violations(u) == {} <==> Accepted(u)
  {
    EmailPattern.MatchesIff(u.email);
    if Violations(u) == {} {
      assert Mismatch("email") !in Violations(u);
      assert Required("email") !in Violations(u);
    }
    if Accepted(u) {
      assert EmailPattern.MatchValidator(u.email);
    }
  }

  /** A password shorter than the minimum is rejected whatever the rest of the user. */
  lemma ShortPasswordRejected(u: User)
    requires |u.password| < PasswordMinLength
    ensures Violations(u) != {}
    ensures !Accepted(u)
  {
    ValidationIff(u);
    if u.password == "" {
      assert Required("password") in Violations(u);
    } else {
      assert ShorterThan("password", PasswordMinLength) in Violations(u);
    }
  }

  /** The role a user gets when the document does not set one (`default: 'user'`). */
  function DefaultRole(): (r: string)
    ensures r in Roles && r != RoleAdmin
  {
    RoleUser
  }

  // ------------------------------------------------------------------
  // The unique indexes and the enum as invariants of the user store.
  // ------------------------------------------------------------------

  ghost predicate UniqueUsernames(users: map<Id, User>) {
    forall i, j :: i in users && j in users && i != j ==> users[i].username != users[j].username
  }

  ghost predicate UniqueEmails(users: map<Id, User>) {
    forall i, j :: i in users && j in users && i != j ==> users[i].email != users[j].email
  }

  /** What holds of every user store the schema lets come about. */
  ghost predicate ValidUsers(users: map<Id, User>) {
    UniqueUsernames(users) && UniqueEmails(users) &&
    forall id :: id in users ==> users[id].username != "" && EmailPattern.Matches(users[id].email) && users[id].role in Roles
  }

  /** The unique index that inserting `u` would break, if any. The handler
      checks e-mail uniqueness itself, so only the username index is ever
      reached by a registration; when both clash, the username is reported. */
  function DuplicateKeyOf(users: map<Id, User>, u: User): (r: Option<string>)
    ensures r.None? <==>
      (forall id :: id in users ==> users[id].username != u.username && users[id].email != u.email)
    ensures r == Some("username") <==> exists id :: id in users && users[id].username == u.username
  {
    if exists id :: id in users && users[id].username == u.username then Some("username")
    else if exists id :: id in users && users[id].email == u.email then Some("email")
    else None
  }

  /** Inserting a user the schema accepted (its password hashed since) that
      breaks no unique index keeps the store valid. */
  lemma InsertKeepsValid(users: map<Id, User>, id: Id, u: User)
    requires ValidUsers(users) && id !in users
    requires u.username != "" && EmailPattern.Matches(u.email) && u.role in Roles
    requires DuplicateKeyOf(users, u).None?
    ensures ValidUsers(users[id := u])
  {
  }

  /** How `User.create` ends: the stored user under its new id, or the
      error that stopped it. */
  datatype Saved = Saved(id: Id, user: User) | SaveFailed(failure: Failure)

  /** `User.create({ username, email, password })`: build the document (role
      defaulted), validate it with the plaintext password, run the pre-save
      hook, then insert, which the unique indexes may refuse. */
  method Create(users: Collection<User>, username: string, email: string, password: string,
                hash: string -> string) returns (r: Saved)
    requires users.Valid()
    modifies users
    ensures users.Valid()
    ensures var candidate := User(username, email, password, DefaultRole());
      var stored := candidate.(password := hash(password));
      if Violations(candidate) != {} then
        r == SaveFailed(Invalid(Violations(candidate))) && users.docs == old(users.docs)
      else if DuplicateKeyOf(old(users.docs), stored).Some? then
        r == SaveFailed(DuplicateKey(DuplicateKeyOf(old(users.docs), stored).value)) && users.docs == old(users.docs)
      else
        r.Saved? && r.user == stored && r.id !in old(users.docs) && users.docs == old(users.docs)[r.id := stored]
    ensures ValidUsers(old(users.docs)) ==> ValidUsers(users.docs)
  {
    var doc := new UserDocument(username, email, password);
    var violations := Violations(doc.Record());
    if violations != {} {
      return SaveFailed(Invalid(violations));
    }
    ValidationIff(doc.Record());
    doc.PreSave(hash);
    var stored := doc.Record();
    var clash := DuplicateKeyOf(users.docs, stored);
    if clash.Some? {
      return SaveFailed(DuplicateKey(clash.value));
    }
    if ValidUsers(users.docs) {
      InsertKeepsValid(users.docs, users.nextId, stored);
    }
    var id := users.Insert(stored);
    return Saved(id, stored);
  }

  // ------------------------------------------------------------------
  // A user document in memory, with the pre-save hook and matchPassword.
  // ------------------------------------------------------------------

  class UserDocument {
    var username: string
    var email: string
    var password: string
    var role: string
    /** `this.isModified('password')` */
    var passwordModified: bool

    /** `new User({ username, email, password })`: the role takes its default,
        and the password of a new document counts as modified. */
    constructor (username: string, email: string, password: string)
      ensures this.username == username && this.email == email && this.password == password
      ensures role == DefaultRole() && passwordModified
    {
      this.username := username;
      this.email := email;
      this.password := password;
      role := RoleUser;
      passwordModified := true;
    }

    /** A document read back from the store with `select('+password')`. */
    constructor Loaded(u: User)
      ensures Record() == u && !passwordModified
    {
      username := u.username;
      email := u.email;
      password := u.password;
      role := u.role;
      passwordModified := false;
    }

    /** The fields the document would store. */
    function Record(): (u: User)
      reads this
      ensures u.username == username && u.email == email && u.password == password && u.role == role
    {
      User(username, email, password, role)
    }

    /** The pre-save hook: a modified password is replaced by its hash, an
        unmodified one is left as it is (so a stored hash is never hashed twice),
        and nothing else in the document changes. */
    method PreSave(hash: string -> string)
      modifies this
      ensures password == if old(passwordModified) then hash(old(password)) else old(password)
      ensures username == old(username) && email == old(email) && role == old(role)
      ensures passwordModified == old(passwordModified)
      ensures old(passwordModified) ==> MatchPassword(old(password), hash)
    {
      if !passwordModified {
        return;
      }
      password := hash(password);
    }

    /** `matchPassword(entered)`: bcrypt's compare of the entered password with
        the stored hash, read as hashing the entered password and comparing. */
    function MatchPassword(entered: string, hash: string -> string): (r: bool)
      reads this
      ensures r <==> hash(entered) == password
    {
      hash(entered) == password
    }
  }
}
