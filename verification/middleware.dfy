/** The request middleware: the unknown-endpoint answer, the error handler, the bearer
    token extractor and the user extractor. */
module Middleware {
  import opened Wrappers
  import opened Http
  import Text
  import Jwt
  import Models
  import Collections

  /** `unknownEndpoint`: 404 `{ error: 'unknown endpoint' }`. */
  function UnknownEndpoint(): (r: Response)
    ensures r == ErrorResponse(404, "unknown endpoint")
  {
    Response(404, JsonBody(Json.Obj(map["error" := Json.Str("unknown endpoint")])))
  }

  /** `errorHandler`: the response for the error kinds it knows, and none for any other
      error, which it passes on with `next(error)`. */
  function ErrorHandler(e: Error): (r: Option<Response>)
    ensures e.name == "CastError" ==> r == Some(ErrorResponse(400, "malformatted id"))
    ensures e.name == "ValidationError" ==> r == Some(ErrorResponse(400, e.message))
    ensures e.name == "MongoServerError" && Text.Includes(e.message, Models.DuplicateKeyCode) ==>
              r == Some(ErrorResponse(400, "expected `username` to be unique"))
    ensures e.name == "JsonWebTokenError" ==> r == Some(ErrorResponse(401, "invalid token"))
    ensures e.name == "TokenExpiredError" ==> r == Some(ErrorResponse(401, "token expired"))
    ensures r.None? <==>
              e.name !in {"CastError", "ValidationError", "JsonWebTokenError", "TokenExpiredError"}
              && !(e.name == "MongoServerError" && Text.Includes(e.message, Models.DuplicateKeyCode))
  {
    if e.name == "CastError" then Some(ErrorResponse(400, "malformatted id"))
    else if e.name == "ValidationError" then Some(ErrorResponse(400, e.message))
    else if e.name == "MongoServerError" && Text.Includes(e.message, Models.DuplicateKeyCode) then
      Some(ErrorResponse(400, "expected `username` to be unique"))
    else if e.name == "JsonWebTokenError" then Some(ErrorResponse(401, "invalid token"))
    else if e.name == "TokenExpiredError" then Some(ErrorResponse(401, "token expired"))
    else None
  }

  /** Every answer the error handler gives is a client error: 400 or 401. */
  lemma ErrorHandlerStatuses(e: Error)
    ensures ErrorHandler(e).Some? ==> ErrorHandler(e).value.status in {400, 401}
  {
  }

  const Scheme := "Bearer "

  /** `tokenExtractor`: the text after a leading "Bearer " (case and space exact), and
      null for a missing header or any other form. */
  function TokenExtractor(authorization: Option<string>): (r: Option<string>)
    ensures r.Some? <==> authorization.Some? && Text.StartsWith(authorization.value, Scheme)
    ensures r.Some? ==> authorization.value == Scheme + r.value
  {
    match authorization
    case None => None
    case Some(h) =>
      if h != "" && Text.StartsWith(h, Scheme) then
        Text.ReplacePrefix(h, Scheme);
        assert h == h[..|Scheme|] + h[|Scheme|..];
        Some(Text.ReplaceFirst(h, Scheme, ""))
      else None
  }

  /** A header written as "Bearer " followed by a token yields exactly that token. */
  lemma ExtractBearer(token: string)
    ensures TokenExtractor(Some(Scheme + token)) == Some(token)
  {
    Text.PrefixRoundTrip(Scheme, token);
  }

  /** Lower-case "bearer " and "Bearer" without its space are not the scheme. */
  lemma ExtractRejectsOtherForms(token: string)
    ensures TokenExtractor(Some("bearer " + token)) == None
    ensures |token| == 0 || token[0] != ' ' ==> TokenExtractor(Some("Bearer" + token)) == None
    ensures TokenExtractor(None) == None
  {
    var h := "bearer " + token;
    assert h[0] != Scheme[0];
    var g := "Bearer" + token;
    if |token| > 0 {
      assert g[6] == token[0];
    }
  }

  /** The error `jwt.verify` throws for a rejected token. */
  function VerdictError(v: Jwt.Verdict): Error
    requires !v.Decoded?
  {
    match v
    case Invalid(m) => Error("JsonWebTokenError", m)
    case Expired => Error("TokenExpiredError", "jwt expired")
  }

  /** `userExtractor`: verifies the token (throwing when it is rejected); when the decoded
      claims carry a truthy `id`, attaches `User.findById(id)`, which is null for an
      unknown id; otherwise attaches nothing. */
  function UserExtractor(verify: Jwt.Verifier, token: Option<string>, now: int, users: seq<Models.User>)
    : (r: Result<Option<Models.User>, Error>)
    ensures var v := Jwt.Verify(verify, token, now);
            !v.Decoded? ==> r == Err(VerdictError(v))
    ensures r.Ok? && r.value.Some? ==>
              var v := Jwt.Verify(verify, token, now);
              && v.Decoded? && v.claims.id.Some?
              && r.value.value in users
              && Models.CastObjectId(v.claims.id.value) == Some(r.value.value.id)
    ensures var v := Jwt.Verify(verify, token, now);
            v.Decoded? && (v.claims.id.None? || v.claims.id.value == "") ==> r == Ok(None)
    ensures var v := Jwt.Verify(verify, token, now);
            v.Decoded? && v.claims.id.Some? && v.claims.id.value != "" ==>
              var id := v.claims.id.value;
              && (!Models.IsObjectIdText(id) ==> r == Err(Models.CastError(id)))
              && (Models.IsObjectIdText(id) ==>
                    && r.Ok?
                    && (r.value.None? <==> forall i :: 0 <= i < |users| ==> users[i].id != Models.CastObjectId(id).value))
  {
    var v := Jwt.Verify(verify, token, now);
    match v
    case Invalid(_) => Err(VerdictError(v))
    case Expired => Err(VerdictError(v))
    case Decoded(claims) =>
      if claims.id.Some? && claims.id.value != "" then
        Collections.FindUserById(users, claims.id.value)
      else Ok(None)
  }
}
