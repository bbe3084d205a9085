/** The two cryptographic libraries of the server, bcryptjs and
    jsonwebtoken, kept abstract: each is a pair of functions the model does
    not look inside, and the little it relies on is stated as a predicate
    that the lemmas needing it take as a hypothesis. */
module Crypto {
  import opened Wrappers
  import opened JsText

  /** The cost passed to `bcrypt.hash`. */
  const SaltRounds: nat := 10

  /** The signing key, a constant of the server. */
  const Secret := "supersecretkey"

  /** `expiresIn: "1h"`, in seconds. */
  const TokenLifetime: nat := 3600

  /** bcryptjs: `hash(password, rounds, salt)` (the random salt made a
      parameter) and `compare(password, hash)`. */
  datatype Bcrypt = Bcrypt(hash: (string, nat, nat) -> string, compare: (string, string) -> bool)

  /** What the model assumes of bcrypt: a password matches every hash made
      from it. */
  ghost predicate BcryptSound(b: Bcrypt) {
    forall password, rounds, salt :: b.compare(password, b.hash(password, rounds, salt))
  }

  /** The decoded payload of a token: the `userId` the server put in, and
      the issue and expiry instants (seconds) jsonwebtoken adds. */
  datatype Claims = Claims(userId: int, iat: int, exp: int)

  /** jsonwebtoken: `sign(key, claims)` and `verify(key, token, nowSeconds)`,
      the latter None for any token it throws on. */
  datatype Jwt = Jwt(sign: (string, Claims) -> string, verify: (string, string, int) -> Option<Claims>)

  /** A compact token: non-empty, and no space inside (its segments are
      base64url text joined by dots). */
  predicate CompactToken(t: string) {
    t != "" && Free(t, {' '})
  }

  /** What the model assumes of jsonwebtoken: a token verifies under the
      key it was signed with, to the claims it was signed over, exactly while
      the clock is before its expiry; no token verifies to expired claims;
      signed tokens are compact. */
  ghost predicate JwtSound(j: Jwt) {
    && (forall key, c, now :: j.verify(key, j.sign(key, c), now) == if now < c.exp then Some(c) else None)
    && (forall key, t, now :: j.verify(key, t, now).Some? ==> now < j.verify(key, t, now).value.exp)
    && (forall key, c :: CompactToken(j.sign(key, c)))
  }

  /** The claims of a token issued at `nowMs` for `userId`: jsonwebtoken
      takes the issue time in whole seconds and adds one hour. */
  function TokenClaims(userId: int, nowMs: nat): (c: Claims)
    ensures c.userId == userId
    ensures c.exp - c.iat == TokenLifetime
    ensures c.iat * 1000 <= nowMs < (c.iat + 1) * 1000
  {
    Claims(userId, nowMs / 1000, nowMs / 1000 + TokenLifetime)
  }

  /** `jwt.sign({ userId }, SECRET, { expiresIn: "1h" })`. */
  function IssueToken(j: Jwt, userId: int, nowMs: nat): string {
    j.sign(Secret, TokenClaims(userId, nowMs))
  }
}
