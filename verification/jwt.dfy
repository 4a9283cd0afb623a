/** Signed, time-limited identity tokens (JSON Web Tokens, RFC 7519). Signing and
    verification are cryptographic and are taken as given functions; what the server
    relies on is stated as the laws they obey. Times are whole seconds. */
module Jwt {
  import opened Wrappers

  /** The payload claims the server reads: `username` and `id`. */
  datatype Claims = Claims(username: Option<string>, id: Option<string>)

  /** What `jwt.verify` does with a token: returns the claims, or throws a
      JsonWebTokenError (with its message) or a TokenExpiredError. */
  datatype Verdict = Decoded(claims: Claims) | Invalid(message: string) | Expired

  /** `jwt.sign(claims, SECRET, ...)` for a token whose `exp` claim is the given time. */
  type Signer = (Claims, int) -> string

  /** `jwt.verify(token, SECRET)` at the given time. */
  type Verifier = (string, int) -> Verdict

  /** `expiresIn: 60*60`: a token is good for one hour. */
  const Lifetime: int := 60 * 60

  /** A signed token is never empty (its compact form is three dot-separated parts,
      section 7.1 of RFC 7515), and it verifies to its claims strictly before its `exp`
      time (section 4.1.4 of RFC 7519) and is expired from then on. */
  ghost predicate Laws(sign: Signer, verify: Verifier) {
    && (forall c: Claims, exp: int :: sign(c, exp) != "")
    && (forall c: Claims, exp: int, now: int ::
          verify(sign(c, exp), now) == if now < exp then Decoded(c) else Expired)
  }

  /** `jwt.sign(claims, SECRET, { expiresIn: 60*60 })` at time `now`. */
  function Issue(sign: Signer, c: Claims, now: int): string {
    sign(c, now + Lifetime)
  }

  /** `jwt.verify(token, SECRET)`, where a falsy token (null or the empty string) is
      rejected before any signature is checked. */
  function Verify(verify: Verifier, token: Option<string>, now: int): (r: Verdict)
    ensures token.None? || token.value == "" ==> r == Invalid("jwt must be provided")
    ensures token.Some? && token.value != "" ==> r == verify(token.value, now)
  {
    match token
    case None => Invalid("jwt must be provided")
    case Some(t) => if t == "" then Invalid("jwt must be provided") else verify(t, now)
  }

  /** A token issued at `issued` gives back its claims for exactly one hour, and is
      expired from then on. */
  lemma IssuedTokenLifetime(sign: Signer, verify: Verifier, c: Claims, issued: int, now: int)
    requires Laws(sign, verify)
    ensures now < issued + Lifetime ==> Verify(verify, Some(Issue(sign, c, issued)), now) == Decoded(c)
    ensures now >= issued + Lifetime ==> Verify(verify, Some(Issue(sign, c, issued)), now) == Expired
  {
  }
}
