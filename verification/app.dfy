/** The request pipeline for `/api/blogs`: `tokenExtractor` runs for every request,
    `userExtractor` runs before every blogs route (GET included), then the router; a
    thrown error goes to `errorHandler`, and one it does not answer to Express's
    default handler. */
module App {
  import opened Wrappers
  import opened Http
  import opened Models
  import opened Collections
  import Jwt
  import Text
  import Middleware
  import BlogsController
  import LoginController

  /** What a request under `/api/blogs` asks for. `NoRoute` is a path or method the blogs
      router does not define, which falls through to `unknownEndpoint`. */
  datatype BlogAction =
    | ListAll
    | Create(body: BlogsController.BlogInput)
    | Remove(id: string)
    | Update(id: string, body: BlogsController.BlogInput)
    | NoRoute

  /** The answer to a thrown error: the error handler's, or a 500 from Express's default
      handler for any error it passes on. */
  function Finish(e: Error): (r: Response)
    ensures Middleware.ErrorHandler(e).Some? ==> r == Middleware.ErrorHandler(e).value
    ensures Middleware.ErrorHandler(e).None? ==> r.status == 500
  {
    match Middleware.ErrorHandler(e)
    case Some(resp) => resp
    case None => Response(500, Page("Internal Server Error"))
  }

  function Answer(o: Outcome): Response {
    match o
    case Respond(resp) => resp
    case Throw(e) => Finish(e)
  }

  /** The blogs router with the user the middleware attached. */
  function Route(st: Store, user: Option<User>, action: BlogAction, freshId: string): BlogsController.Step
    requires forall i :: 0 <= i < |st.blogs| ==> st.blogs[i].id != freshId
  {
    match action
    case ListAll => BlogsController.Step(st, Respond(BlogsController.List(st)))
    case Create(body) => BlogsController.Create(st, user, body, freshId)
    case Remove(id) => BlogsController.Remove(st, user, id)
    case Update(id, body) => BlogsController.Update(st, id, body)
    case NoRoute => BlogsController.Step(st, Respond(Middleware.UnknownEndpoint()))
  }

  /** One request under `/api/blogs` at time `now`, with the given Authorization header.
      `freshId` is the id the database would give a new document. */
  function HandleBlogs(st: Store, authorization: Option<string>, action: BlogAction,
                       verify: Jwt.Verifier, now: int, freshId: string): (r: (Store, Response))
    requires forall i :: 0 <= i < |st.blogs| ==> st.blogs[i].id != freshId
    ensures Middleware.UserExtractor(verify, Middleware.TokenExtractor(authorization), now, st.users).Err? ==>
              r.0 == st && r.1.status in {400, 401}
    ensures var v := Jwt.Verify(verify, Middleware.TokenExtractor(authorization), now);
            !v.Decoded? ==> r == (st, ErrorResponse(401, if v.Expired? then "token expired" else "invalid token"))
    ensures var v := Jwt.Verify(verify, Middleware.TokenExtractor(authorization), now);
            v.Decoded? && v.claims.id.Some? && v.claims.id.value != "" && !IsObjectIdText(v.claims.id.value) ==>
              r == (st, ErrorResponse(400, "malformatted id"))
  {
    var token := Middleware.TokenExtractor(authorization);
    match Middleware.UserExtractor(verify, token, now, st.users)
    case Err(e) => (st, Finish(e))
    case Ok(user) =>
      var step := Route(st, user, action, freshId);
      (step.store, Answer(step.outcome))
  }

  /** Without a "Bearer " header, or with "Bearer " and nothing after it, every blogs
      request, reads included, is refused with 401 `invalid token` and changes nothing. */
  lemma MissingTokenRefused(st: Store, authorization: Option<string>, action: BlogAction,
                            verify: Jwt.Verifier, now: int, freshId: string)
    requires forall i :: 0 <= i < |st.blogs| ==> st.blogs[i].id != freshId
    requires authorization.None? || !Text.StartsWith(authorization.value, Middleware.Scheme)
             || authorization.value == Middleware.Scheme
    ensures HandleBlogs(st, authorization, action, verify, now, freshId)
            == (st, ErrorResponse(401, "invalid token"))
  {
  }

  /** A token used an hour or more after it was issued is refused with 401 `token expired`
      and changes nothing. */
  lemma ExpiredTokenRefused(st: Store, sign: Jwt.Signer, verify: Jwt.Verifier, c: Jwt.Claims,
                            issued: int, now: int, action: BlogAction, freshId: string)
    requires Jwt.Laws(sign, verify)
    requires forall i :: 0 <= i < |st.blogs| ==> st.blogs[i].id != freshId
    requires now >= issued + Jwt.Lifetime
    ensures HandleBlogs(st, Some(Middleware.Scheme + Jwt.Issue(sign, c, issued)), action, verify, now, freshId)
            == (st, ErrorResponse(401, "token expired"))
  {
    Middleware.ExtractBearer(Jwt.Issue(sign, c, issued));
    Jwt.IssuedTokenLifetime(sign, verify, c, issued, now);
  }

  /** With a valid store, the id in a token issued to a stored user finds that user. */
  lemma StoredUserFound(users: seq<User>, u: User)
    requires forall i :: 0 <= i < |users| ==> IsObjectId(users[i].id)
    requires UniqueKeys(users, UserId)
    requires u in users
    ensures FindUserById(users, u.id) == Ok(Some(u))
  {
    var i :| 0 <= i < |users| && users[i] == u;
    CastPrintedId(u.id);
    FindUnique(users, UserId, i);
  }

  /** Logging in and then posting a blog with the token, within the hour, creates the blog
      for the logged-in user: 201, one more blog, owned by that user and listed last. */
  lemma LoginThenCreate(st: Store, creds: LoginController.Credentials, compare: LoginController.Comparator,
                        sign: Jwt.Signer, verify: Jwt.Verifier, loginTime: int, now: int,
                        body: BlogsController.BlogInput, freshId: string)
    requires Jwt.Laws(sign, verify)
    requires ValidStore(st)
    requires forall i :: 0 <= i < |st.blogs| ==> st.blogs[i].id != freshId
    requires LoginController.Login(st.users, creds, compare, sign, loginTime).status == 200
    requires now < loginTime + Jwt.Lifetime
    requires BlogsController.Truthy(body.title) && BlogsController.Truthy(body.url)
    ensures var token := LoginController.Login(st.users, creds, compare, sign, loginTime).body.value.fields["token"].s;
            var u := FindByUsername(st.users, creds.username).value;
            var r := HandleBlogs(st, Some(Middleware.Scheme + token), Create(body), verify, now, freshId);
            && r.1.status == 201
            && |r.0.blogs| == |st.blogs| + 1
            && r.0.blogs[|st.blogs|].user == Some(u.id)
            && r.0.blogs[|st.blogs|].title == body.title
  {
    var u := FindByUsername(st.users, creds.username).value;
    var token := LoginController.Login(st.users, creds, compare, sign, loginTime).body.value.fields["token"].s;
    assert Middleware.UserExtractor(verify, Middleware.TokenExtractor(Some(Middleware.Scheme + token)), now, st.users)
           == Ok(Some(u)) by {
      LoginController.LoginTokenClaims(st.users, creds, compare, sign, verify, loginTime, now);
      Middleware.ExtractBearer(token);
      StoredUserFound(st.users, u);
    }
    RouteAttached(st, Some(Middleware.Scheme + token), Create(body), verify, now, freshId, Some(u));
    CreateAsStoredUser(st, u, body, freshId);
  }

  /** Once the user extractor has attached `user`, the request is the router's. */
  lemma RouteAttached(st: Store, authorization: Option<string>, action: BlogAction,
                      verify: Jwt.Verifier, now: int, freshId: string, user: Option<User>)
    requires forall i :: 0 <= i < |st.blogs| ==> st.blogs[i].id != freshId
    requires Middleware.UserExtractor(verify, Middleware.TokenExtractor(authorization), now, st.users) == Ok(user)
    ensures var step := Route(st, user, action, freshId);
            HandleBlogs(st, authorization, action, verify, now, freshId) == (step.store, Answer(step.outcome))
  {
  }

  /** A stored user posting a blog with a title and url gets 201, and the blog is
      appended with that user as its owner. */
  lemma CreateAsStoredUser(st: Store, u: User, body: BlogsController.BlogInput, freshId: string)
    requires ValidStore(st) && u in st.users
    requires forall i :: 0 <= i < |st.blogs| ==> st.blogs[i].id != freshId
    requires BlogsController.Truthy(body.title) && BlogsController.Truthy(body.url)
    ensures var step := BlogsController.Create(st, Some(u), body, freshId);
            && Answer(step.outcome).status == 201
            && |step.store.blogs| == |st.blogs| + 1
            && step.store.blogs[|st.blogs|].user == Some(u.id)
            && step.store.blogs[|st.blogs|].title == body.title
  {
    var i :| 0 <= i < |st.users| && st.users[i] == u;
    FindUnique(st.users, UserId, i);
  }

  /** A duplicate username from the user schema's unique index is answered with 400. */
  lemma DuplicateUsernameAnswered(username: string)
    ensures Finish(DuplicateUsername(username)) == ErrorResponse(400, "expected `username` to be unique")
  {
    var msg := DuplicateUsername(username).message;
    Text.PrefixRoundTrip(DuplicateKeyCode, DuplicateKeyDetail(username));
    assert Text.OccursAt(msg, DuplicateKeyCode, 0);
  }

  /** A user document that breaks the schema is answered with 400 and the validator's message. */
  lemma InvalidUserAnswered(d: UserDraft)
    ensures Finish(ValidationError(d)) == ErrorResponse(400, ValidationError(d).message)
  {
  }

  /** A malformed id in a delete or update is answered with 400 `malformatted id`. */
  lemma MalformedIdAnswered(st: Store, user: Option<User>, id: string, body: BlogsController.BlogInput)
    requires !IsObjectIdText(id)
    ensures Answer(BlogsController.Remove(st, user, id).outcome) == ErrorResponse(400, "malformatted id")
    ensures Answer(BlogsController.Update(st, id, body).outcome) == ErrorResponse(400, "malformatted id")
  {
  }
}
