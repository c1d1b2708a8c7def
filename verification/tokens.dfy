/** The access token minted on login, as an opaque value built from its claims. */
module Tokens {

  /** The payload the login handler signs. */
  datatype Claims = Claims(userId: nat, email: string)

  /** A signed token: the claims plus the registered `iat` and `exp` claims
      (section 4.1.6 and section 4.1.4 of RFC 7519), both in whole seconds. */
  datatype Jwt = Jwt(payload: Claims, iat: int, exp: int)

  /** `expiresIn: '1h'`, in seconds. */
  const OneHour: nat := 3600

  /** Signs `claims` at wall-clock time `nowMs` (milliseconds since the epoch):
      `iat` is the current time truncated to whole seconds and `exp` lies one
      hour after it. */
  function Sign(claims: Claims, nowMs: nat): (t: Jwt)
    ensures t.payload == claims
    ensures t.exp == t.iat + OneHour
    ensures t.iat * 1000 <= nowMs < t.iat * 1000 + 1000
  {
    var iat := nowMs / 1000;
    Jwt(claims, iat, iat + OneHour)
  }

  /** A verifier accepts the token at second `now` only before its expiry
      (section 4.1.4 of RFC 7519). */
  predicate Live(t: Jwt, now: int) {
    now < t.exp
  }

  /** A token signed at `nowMs` is accepted up to 3599 s later and refused
      from one hour later on. */
  lemma SignedTokenLifetime(claims: Claims, nowMs: nat, laterMs: nat)
    requires nowMs <= laterMs
    ensures laterMs <= nowMs + 3_599_000 ==> Live(Sign(claims, nowMs), laterMs / 1000)
    ensures laterMs >= nowMs + 3_600_000 ==> !Live(Sign(claims, nowMs), laterMs / 1000)
  {
  }
}
