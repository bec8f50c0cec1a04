/** The Message schema behind the contact form: three required fields, the
    shared e-mail pattern, and timestamps that Mongoose adds by itself. */
module MessageModel {
  import opened Common
  import EmailPattern
  import UserModel

  /** A stored contact message. `createdAt` is set from the clock on create. */
  datatype Message = Message(name: string, email: string, message: string, createdAt: nat)

  /** The validation errors of `m`: for each path, the first of its
      validators that fails. The `match` validator lets the empty string
      through, so an empty e-mail is reported as missing only. */
  function Violations(m: Message): (r: set<Violation>)
    ensures Required("name") in r <==> m.name == ""
    ensures Required("email") in r <==> m.email == ""
    ensures Mismatch("email") in r <==> !EmailPattern.MatchValidator(m.email)
    ensures Required("message") in r <==> m.message == ""
    ensures OnePerPath(r)
  {
    (if m.name == "" then {Required("name")} else {}) +
    (if m.email == "" then {Required("email")} else {}) +
    (if !EmailPattern.MatchValidator(m.email) then {Mismatch("email")} else {}) +
    (if m.message == "" then {Required("message")} else {})
  }

  /** What the schema promises of an accepted message. */
  ghost predicate Accepted(m: Message) {
    m.name != "" && EmailPattern.Matches(m.email) && m.message != ""
  }

  /** Validation passes exactly on the messages the schema describes. */
  lemma ValidationIff(m: Message)
    ensures Violations(m) == {} <==> Accepted(m)
  {
    EmailPattern.MatchesIff(m.email);
    if Violations(m) == {} {
      assert Mismatch("email") !in Violations(m);
      assert Required("email") !in Violations(m);
    }
    if Accepted(m) {
      assert EmailPattern.MatchValidator(m.email);
    }
  }

  /** A message and a user with the same e-mail address pass or fail the
      e-mail validators alike: the two schemas use the same pattern. */
  lemma SameEmailRule(m: Message, u: UserModel.User)
    requires m.email == u.email
    ensures Mismatch("email") in Violations(m) <==> Mismatch("email") in UserModel.Violations(u)
    ensures Required("email") in Violations(m) <==> Required("email") in UserModel.Violations(u)
  {
  }

  /** The timestamp never decides validation. */
  lemma TimestampIrrelevant(m: Message, t: nat)
    ensures Violations(m.(createdAt := t)) == Violations(m)
  {
  }

  /** Messages with the addresses used as examples by the schema's authors. */
  lemma Examples(t: nat)
    ensures Accepted(Message("n", "a@b.com", "hi", t))
    ensures !Accepted(Message("n", "ab.com", "hi", t))
    ensures !Accepted(Message("n", "a@b.c", "hi", t))
  {
    EmailPattern.AcceptsShortAddress();
    EmailPattern.RejectsMissingAt();
    EmailPattern.RejectsShortTopLevel();
  }
}
