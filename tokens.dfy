/** The JSON Web Token library, left uninterpreted: which secret a token's signature checks
    against, and the payload a token carries. Verification adds the expiry test. */
module Tokens {

  import opened Wrappers

  /** JWT_SECRET signs access tokens, JWT_REFRESH_SECRET refresh tokens and
      JWT_RESET_SECRET password-reset tokens. */
  datatype Secret = AccessSecret | RefreshSecret | ResetSecret

  /** The claims the handlers read: the user id, the email (access and reset tokens) and the
      expiry instant `exp` in seconds. */
  datatype Claims = Claims(userId: string, email: string, exp: int)

  /** `signedWith` says whether a token's signature checks against a secret; `decode` is
      jwt.decode: the payload of any well-formed token, checking neither signature nor expiry. */
  datatype Jwt = Jwt(signedWith: (string, Secret) -> bool, decode: string -> Option<Claims>)

  /** jwt.verify: the payload of a token whose signature checks against `secret` and whose
      expiry lies strictly in the future (a token is expired once `now` reaches `exp`). */
  function Verify(jwt: Jwt, token: string, secret: Secret, now: nat): (c: Option<Claims>)
    ensures c.Some? <==> jwt.signedWith(token, secret) && jwt.decode(token).Some? && now < jwt.decode(token).value.exp
    ensures c.Some? ==> c == jwt.decode(token)
  {
    if jwt.signedWith(token, secret) && jwt.decode(token).Some? && now < jwt.decode(token).value.exp then
      jwt.decode(token)
    else
      None
  }

  /** A token that verifies at some instant verified, with the same claims, at every earlier
      instant: expiry never reverses. */
  lemma VerifiedEarlier(jwt: Jwt, token: string, secret: Secret, earlier: nat, later: nat)
    requires earlier <= later
    requires Verify(jwt, token, secret, later).Some?
    ensures Verify(jwt, token, secret, earlier) == Verify(jwt, token, secret, later)
  {
  }
}
