/** Session tokens: `jwt.sign(claims, secret, { expiresIn: "7d" })` and
    `jwt.verify(token, secret)` with the library's default HS256.

    The signature is a symbolic term: `Hs256(key, payload)` stands for the
    HMAC of the payload under the key, and a token verifies only if its
    signature is the one the given secret produces for the payload it
    carries. Base64url encoding and JSON serialisation are not modelled.
    Times are milliseconds since the epoch, passed in by the caller in
    place of `Date.now()`; the token itself holds whole seconds. */
module Jwt {
  import opened JsText

  /** `expiresIn: "7d"`, in seconds. */
  const LifetimeSeconds: nat := 7 * 24 * 60 * 60

  /** The claims `makeToken` puts into a token. */
  datatype Claims = Claims(id: nat, email: string, name: string)

  /** A decoded token payload: the claims plus the `iat` and `exp` fields
      that signing adds. This is what `jwt.verify` returns. */
  datatype Payload = Payload(id: nat, email: string, name: string, iat: int, exp: int)

  datatype Signature = Hs256(key: string, payload: Payload)

  datatype Token = Token(payload: Payload, signature: Signature)

  /** `Math.floor(nowMs / 1000)`: the library's clock in seconds. */
  function Seconds(nowMs: nat): nat {
    nowMs / 1000
  }

  /** `jwt.verify(token, secret)`: the decoded payload, or `None` where the
      library throws (bad signature, or `exp` already reached). An accepted
      token is exactly one signed with `secret` over the payload it carries,
      checked before its expiry second. */
  function Verify(t: Token, secret: string, nowMs: nat): (r: Option<Payload>)
    ensures r.Some? <==> t.signature == Hs256(secret, t.payload) && Seconds(nowMs) < t.payload.exp
    ensures r.Some? ==> r.value == t.payload
  {
    if t.signature != Hs256(secret, t.payload) then None
    else if Seconds(nowMs) >= t.payload.exp then None
    else Some(t.payload)
  }

  /** `jwt.sign(claims, secret, { expiresIn: "7d" })` at time `nowMs`. The
      token carries the claims unchanged, is valid for seven days from the
      second it was issued in, and verifies under `secret` at every instant
      before that second comes and at none after. */
  function Sign(claims: Claims, secret: string, nowMs: nat): (t: Token)
    ensures t.payload.id == claims.id && t.payload.email == claims.email && t.payload.name == claims.name
    ensures t.payload.iat == Seconds(nowMs) && t.payload.exp == t.payload.iat + LifetimeSeconds
    ensures forall later: nat {:trigger Verify(t, secret, later)} ::
              Verify(t, secret, later) == if Seconds(later) < t.payload.exp then Some(t.payload) else None
  {
    var payload := Payload(claims.id, claims.email, claims.name, Seconds(nowMs), Seconds(nowMs) + LifetimeSeconds);
    Token(payload, Hs256(secret, payload))
  }

  /** A token whose payload was altered after signing is rejected, whatever
      the new payload and whenever it is presented. */
  lemma TamperedRejected(t: Token, forged: Payload, secret: string, nowMs: nat)
    requires Verify(t, secret, nowMs).Some? && forged != t.payload
    ensures Verify(Token(forged, t.signature), secret, nowMs).None?
  {
  }

  /** A token signed under one secret is rejected under any other: rotating
      the secret invalidates every outstanding token. */
  lemma OtherSecretRejected(claims: Claims, secret: string, other: string, issuedMs: nat, nowMs: nat)
    requires other != secret
    ensures Verify(Sign(claims, secret, issuedMs), other, nowMs).None?
  {
  }
}
