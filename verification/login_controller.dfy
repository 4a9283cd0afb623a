/** POST `/api/login`: the credential check and token issue. Password comparison
    (bcrypt) and signing are given functions. */
module LoginController {
  import opened Wrappers
  import opened Json
  import opened Http
  import opened Models
  import Jwt

  /** `bcrypt.compare(password, passwordHash)` */
  type Comparator = (string, string) -> bool

  datatype Credentials = Credentials(username: string, password: string)

  const Rejection := "invalid username or password"

  /** The claims a token is signed with: exactly the user's username and id. */
  function ClaimsFor(u: User): Jwt.Claims {
    Jwt.Claims(Some(u.username), Some(u.id))
  }

  /** `{ token, username, name }`, with `name` absent when the user has none. */
  function LoginBody(token: string, u: User): map<string, Value> {
    Put(map["token" := Str(token), "username" := Str(u.username)], "name", StrOf(u.name))
  }

  /** The login handler at time `now`. The password is compared only when the username
      is known; an unknown user and a wrong password get the same 401. On success the
      answer is 200 with a token for the user's claims that expires one hour later. */
  function Login(users: seq<User>, body: Credentials, compare: Comparator, sign: Jwt.Signer, now: int)
    : (r: Response)
    ensures FindByUsername(users, body.username).None? ==> r == ErrorResponse(401, Rejection)
    ensures var u := FindByUsername(users, body.username);
            u.Some? && !compare(body.password, u.value.passwordHash) ==> r == ErrorResponse(401, Rejection)
    ensures r.status == 200 <==>
              var u := FindByUsername(users, body.username);
              u.Some? && compare(body.password, u.value.passwordHash)
    ensures r.status != 200 ==> r == ErrorResponse(401, Rejection)
    ensures r.status == 200 ==>
              var u := FindByUsername(users, body.username).value;
              && u in users && u.username == body.username
              && r.body == JsonBody(Obj(LoginBody(sign(ClaimsFor(u), now + Jwt.Lifetime), u)))
  {
    var user := FindByUsername(users, body.username);
    var passwordCorrect := if user.None? then false else compare(body.password, user.value.passwordHash);
    if !(user.Some? && passwordCorrect) then ErrorResponse(401, Rejection)
    else
      var token := Jwt.Issue(sign, ClaimsFor(user.value), now);
      Response(200, JsonBody(Obj(LoginBody(token, user.value))))
  }

  /** For an unknown username the comparator is never consulted: any two comparators give
      the same answer. */
  lemma UnknownUserSkipsCompare(users: seq<User>, body: Credentials, c1: Comparator, c2: Comparator,
                                sign: Jwt.Signer, now: int)
    requires FindByUsername(users, body.username).None?
    ensures Login(users, body, c1, sign, now) == Login(users, body, c2, sign, now)
  {
  }

  /** The body of a successful login: the token, and the stored user's username and name. */
  lemma LoginBodyFields(token: string, u: User)
    ensures var b := LoginBody(token, u);
            && b["token"] == Str(token) && b["username"] == Str(u.username)
            && StrField(b, "name") == u.name
            && b.Keys == {"token", "username"} + (if u.name.Some? then {"name"} else {})
  {
  }

  /** The token from a successful login verifies to exactly the user's username and id
      for one hour after the login, and is expired from then on. */
  lemma LoginTokenClaims(users: seq<User>, body: Credentials, compare: Comparator,
                         sign: Jwt.Signer, verify: Jwt.Verifier, now: int, later: int)
    requires Jwt.Laws(sign, verify)
    requires Login(users, body, compare, sign, now).status == 200
    ensures var u := FindByUsername(users, body.username).value;
            var b := Login(users, body, compare, sign, now).body.value.fields;
            && b["token"].Str?
            && (later < now + Jwt.Lifetime ==>
                  Jwt.Verify(verify, Some(b["token"].s), later) == Jwt.Decoded(Jwt.Claims(Some(u.username), Some(u.id))))
            && (later >= now + Jwt.Lifetime ==> Jwt.Verify(verify, Some(b["token"].s), later) == Jwt.Expired)
  {
    var u := FindByUsername(users, body.username).value;
    LoginBodyFields(sign(ClaimsFor(u), now + Jwt.Lifetime), u);
    Jwt.IssuedTokenLifetime(sign, verify, ClaimsFor(u), now, later);
  }
}
