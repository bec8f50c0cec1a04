/** Shared vocabulary: ids, optional values, request-body fields and the process
    configuration that the handlers and middleware receive from the runtime. */
module Common {

  /** A document id. MongoDB's ObjectId is abstracted to a number that the
      owning store hands out; ids are compared by equality, as the source compares
      `toString()` renderings. */
  type Id = nat

  datatype Option<+T> = None | Some(value: T)

  /** One field of a parsed request body (`req.body.x`): absent or a string. */
  type Field = Option<string>

  /** JavaScript truthiness of a body field: present and not the empty string. */
  predicate Truthy(f: Field) {
    f.Some? && f.value != ""
  }

  /** The value of a body field, `undefined` when the key is missing. */
  function FieldOf(body: map<string, string>, key: string): (f: Field)
    ensures f.Some? <==> key in body
    ensures f.Some? ==> f.value == body[key]
  {
    if key in body then Some(body[key]) else None
  }

  /** One failed schema validator, by the path it guards. */
  datatype Violation =
    | Required(path: string)          // `required: true`
    | Mismatch(path: string)          // `match: [pattern, ...]`
    | ShorterThan(path: string, min: nat)  // `minlength: min`
    | NotInEnum(path: string)         // `enum: [...]`

  /** Mongoose checks the validators of one path in order, `required` first,
      and stops at the first that fails: a validation error names at most one
      failure per path. */
  predicate OnePerPath(r: set<Violation>) {
    forall v, w :: v in r && w in r && v.path == w.path ==> v == w
  }

  /** The failures reported for the single path `path`: none or one. */
  predicate FailuresOf(r: set<Violation>, path: string) {
    forall v, w :: v in r && w in r ==> v == w && v.path == path
  }

  /** Failures of four distinct paths, one at most for each, together name
      each path at most once. */
  lemma FourPaths(a: set<Violation>, b: set<Violation>, c: set<Violation>, d: set<Violation>,
                  pa: string, pb: string, pc: string, pd: string)
    requires FailuresOf(a, pa) && FailuresOf(b, pb) && FailuresOf(c, pc) && FailuresOf(d, pd)
    requires pa != pb && pa != pc && pa != pd && pb != pc && pb != pd && pc != pd
    ensures OnePerPath(a + b + c + d)
  {
  }

  /** An error that reaches the central error handler.
      - Raised: `throw new Error(message)` in a handler or middleware
      - Invalid: a Mongoose ValidationError, carrying the first failed
        validator of each path that failed
      - DuplicateKey: MongoDB's E11000 error raised by a unique index on `path` */
  datatype Failure =
    | Raised(message: string)
    | Invalid(violations: set<Violation>)
    | DuplicateKey(path: string)

  /** The process configuration and the foreign code the core calls into.
      - sign: `generateToken(id)`, i.e. `jwt.sign({ id }, JWT_SECRET, { expiresIn: '30d' })`
      - verify: `jwt.verify(token, JWT_SECRET)` read as the id it carries, None on any failure
      - hash: bcrypt hashing of a password (the salt is not modelled)
      - production: `process.env.NODE_ENV === 'production'`
      - stackOf: the stack trace captured when the error was created */
  datatype Env = Env(
    sign: Id -> string,
    verify: string -> Option<Id>,
    hash: string -> string,
    production: bool,
    stackOf: Failure -> string
  )

  // HTTP status codes that occur in the source.
  const StatusOk: int := 200
  const StatusCreated: int := 201
  const StatusBadRequest: int := 400
  const StatusUnauthorized: int := 401
  const StatusForbidden: int := 403
  const StatusNotFound: int := 404
  const StatusServerError: int := 500
}
