/** `protect`, which authenticates a request from its bearer token, and
    `admin`, which lets only administrators through. */
module AuthMiddleware {
  import opened Common
  import opened Store
  import opened UserModel
  import opened Http

  const MsgNoToken: string := "未授权，没有提供令牌"
  const MsgTokenFailed: string := "未授权，令牌验证失败"
  const MsgNoSuchUser: string := "用户不存在，授权失败"
  const MsgNotAdmin: string := "无管理员权限"

  /** `s.startsWith(prefix)` */
  predicate StartsWith(s: string, prefix: string) {
    |prefix| <= |s| && s[..|prefix|] == prefix
  }

  /** `parts.join(c)` */
  function Join(parts: seq<string>, c: char): (s: string)
    requires |parts| >= 1
    decreases |parts|
  {
    if |parts| == 1 then parts[0] else parts[0] + [c] + Join(parts[1..], c)
  }

  /** `s.split(c)` for a one-character separator: the pieces between the
      separators, empty pieces included. */
  function Split(s: string, c: char): (r: seq<string>)
    ensures |r| >= 1
    ensures forall i :: 0 <= i < |r| ==> c !in r[i]
    ensures Join(r, c) == s
    ensures |r| == 1 <==> c !in s
    decreases |s|
  {
    if s == [] then [""]
    else
      var rest := Split(s[1..], c);
      assert s == [s[0]] + s[1..];
      if s[0] == c then [""] + rest
      else
        var r := [[s[0]] + rest[0]] + rest[1..];
        assert r[1..] == rest[1..];
        assert c !in s ==> |rest| == 1;
        r
  }

  /** `header.split(' ')[1]`: the token of "Bearer <token>", undefined when the
      header has no space. */
  function BearerToken(header: string): (t: Option<string>)
    ensures t.None? <==> ' ' !in header
  {
    var parts := Split(header, ' ');
    if |parts| >= 2 then Some(parts[1]) else None
  }

  /** The token of "Bearer " followed by a space-free token is that token. */
  lemma TokenAfterBearer(token: string)
    requires ' ' !in token
    ensures BearerToken("Bearer " + token) == Some(token)
  {
    var h := "Bearer " + token;
    var parts := Split(h, ' ');
    assert h == "Bearer" + [' '] + token;
    SplitAtFirst("Bearer", token, ' ');
  }

  /** Splitting a + [c] + b where a has no c. */
  lemma {:induction false} SplitAtFirst(a: string, b: string, c: char)
    requires c !in a
    ensures var r := Split(a + [c] + b, c); |r| >= 2 && r[0] == a && r[1..] == Split(b, c)
    decreases |a|
  {
    var s := a + [c] + b;
    if a == [] {
      assert s[1..] == b;
    } else {
      assert s[1..] == a[1..] + [c] + b;
      SplitAtFirst(a[1..], b, c);
      assert [a[0]] + a[1..] == a;
    }
  }

  /** What `jwt.verify` yields: the id of a token it accepts. jsonwebtoken
      rejects a missing or empty token before checking any signature. */
  function Verified(token: Option<string>, verify: string -> Option<Id>): Option<Id> {
    if Truthy(token) then verify(token.value) else None
  }

  /** Where `protect` ends for a request. */
  datatype AuthResult =
    | Authenticated(account: Account)
    | NoToken       // no header, or one that does not start with "Bearer"
    | BadToken      // the token is missing, empty or rejected by jwt.verify
    | UnknownUser   // the token's id belongs to no stored user

  /** The decision `protect` makes, as a function of the header, the user
      store and the token verifier. */
  function Authenticate(header: Option<string>, users: map<Id, User>, verify: string -> Option<Id>): (r: AuthResult)
    ensures r.NoToken? <==> header.None? || !StartsWith(header.value, "Bearer")
    ensures r.Authenticated? <==>
      header.Some? && StartsWith(header.value, "Bearer") &&
      Verified(BearerToken(header.value), verify).Some? &&
      Verified(BearerToken(header.value), verify).value in users
    ensures r.Authenticated? ==>
      var id := Verified(BearerToken(header.value), verify).value;
      r.account == PublicView(id, users[id])
  {
    if header.Some? && StartsWith(header.value, "Bearer") then
      match Verified(BearerToken(header.value), verify)
      case None => BadToken
      case Some(id) => if id in users then Authenticated(PublicView(id, users[id])) else UnknownUser
    else NoToken
  }

  /** The error a failed authentication reaches the client with. The
      unknown-user error is thrown inside the `try` and replaced by the
      catch block's, so it never reaches the client. */
  function AuthFailure(r: AuthResult): (f: Failure)
    requires !r.Authenticated?
    ensures r.NoToken? ==> f == Raised(MsgNoToken)
    ensures !r.NoToken? ==> f == Raised(MsgTokenFailed)
    ensures f != Raised(MsgNoSuchUser)
  {
    if r.NoToken? then Raised(MsgNoToken) else Raised(MsgTokenFailed)
  }

  /** A header without a space carries no token: "Bearer" alone (or
      "Bearer…" glued to anything) fails verification. */
  lemma BareBearerFails(header: string, users: map<Id, User>, verify: string -> Option<Id>)
    requires StartsWith(header, "Bearer") && ' ' !in header
    ensures Authenticate(Some(header), users, verify) == BadToken
  {
  }

  /** A header that ends in its first space, such as "Bearer ", yields the
      empty token, which jsonwebtoken refuses whatever the verifier would say. */
  lemma EmptyTokenFails(prefix: string, users: map<Id, User>, verify: string -> Option<Id>)
    requires StartsWith(prefix, "Bearer") && ' ' !in prefix
    ensures Authenticate(Some(prefix + " "), users, verify) == BadToken
  {
    var h := prefix + " ";
    assert h == prefix + [' '] + "";
    SplitAtFirst(prefix, "", ' ');
    assert BearerToken(h) == Some("");
    assert h[..|"Bearer"|] == prefix[..|"Bearer"|];
  }

  /** A well-formed header is judged by its token alone. */
  lemma BearerHeader(token: string, users: map<Id, User>, verify: string -> Option<Id>)
    requires token != "" && ' ' !in token
    ensures var r := Authenticate(Some("Bearer " + token), users, verify);
      (r.Authenticated? <==> verify(token).Some? && verify(token).value in users) &&
      (r == BadToken <==> verify(token).None?) &&
      (r.Authenticated? ==> r.account == PublicView(verify(token).value, users[verify(token).value]))
  {
    TokenAfterBearer(token);
    assert StartsWith("Bearer " + token, "Bearer") by {
      assert ("Bearer " + token)[..6] == "Bearer";
    }
  }

  /** `protect(req, res, next)`. On success `next` has been called once and
      `req.user` is the stored user without its password; on failure `next`
      has not been called and the status is 401. */
  method Protect(ex: Exchange, users: Collection<User>, verify: string -> Option<Id>) returns (step: Step)
    modifies ex
    ensures var a := Authenticate(ex.authorization, users.docs, verify);
      (step == Next <==> a.Authenticated?) &&
      (a.Authenticated? ==> ex.user == Some(a.account) && ex.status == old(ex.status) &&
                            ex.nextCalls == old(ex.nextCalls) + 1) &&
      (!a.Authenticated? ==> step == Halt(AuthFailure(a)) && ex.status == StatusUnauthorized &&
                             ex.nextCalls == old(ex.nextCalls)) &&
      (a.NoToken? || a.BadToken? ==> ex.user == old(ex.user)) &&
      (a.UnknownUser? ==> ex.user == None)
  {
    var token: Option<string> := None;
    var header := ex.authorization;
    if header.Some? && header.value != "" && StartsWith(header.value, "Bearer") {
      // try { ... } catch { ... }
      var caught: Option<Failure> := None;
      token := BearerToken(header.value);
      var decoded := Verified(token, verify);
      if decoded.None? {
        caught := Some(Raised("jwt.verify"));
      } else {
        ex.user := if decoded.value in users.docs then Some(PublicView(decoded.value, users.docs[decoded.value])) else None;
        if ex.user.None? {
          ex.status := StatusUnauthorized;
          caught := Some(Raised(MsgNoSuchUser));
        } else {
          ex.nextCalls := ex.nextCalls + 1;
        }
      }
      if caught.Some? {
        ex.status := StatusUnauthorized;
        return Halt(Raised(MsgTokenFailed));
      }
    }
    if !Truthy(token) {
      ex.status := StatusUnauthorized;
      return Halt(Raised(MsgNoToken));
    }
    return Next;
  }

  /** `req.user && req.user.role === 'admin'` */
  predicate IsAdmin(user: Option<Account>) {
    user.Some? && user.value.role == RoleAdmin
  }

  /** After a successful `protect`, `admin` decides by the stored user's role. */
  lemma AdminAfterProtect(header: Option<string>, users: map<Id, User>, verify: string -> Option<Id>)
    requires Authenticate(header, users, verify).Authenticated?
    ensures var a := Authenticate(header, users, verify).account;
      a.id in users && (IsAdmin(Some(a)) <==> users[a.id].role == RoleAdmin)
  {
  }

  /** `admin(req, res, next)`: calls `next` exactly when `req.user` is an
      administrator; otherwise the status is 403, also when `req.user` is
      absent. `req.user` is never changed. */
  method Admin(ex: Exchange) returns (step: Step)
    modifies ex
    ensures step == Next <==> IsAdmin(old(ex.user))
    ensures ex.user == old(ex.user)
    ensures step.Next? ==> ex.nextCalls == old(ex.nextCalls) + 1 && ex.status == old(ex.status)
    ensures step.Halt? ==> step.failure == Raised(MsgNotAdmin) && ex.status == StatusForbidden &&
                           ex.nextCalls == old(ex.nextCalls)
  {
    if ex.user.Some? && ex.user.value.role == RoleAdmin {
      ex.nextCalls := ex.nextCalls + 1;
      step := Next;
    } else {
      ex.status := StatusForbidden;
      step := Halt(Raised(MsgNotAdmin));
    }
  }
}
