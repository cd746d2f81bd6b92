/** Stand-ins for the cryptography the backend calls but does not define:
    bcrypt password hashes and signed session tokens (JSON Web Tokens). */
module Crypto {
  import opened Wrappers

  /** A stored bcrypt hash, seen only through `PasswordMatches`. Salting and
      one-wayness are not modelled: the hash of a password is a value that
      matches that password and no other. */
  datatype PasswordHash = Digest(password: string)

  /** `bcrypt.hash(password, 10)`. */
  function HashPassword(password: string): (h: PasswordHash)
    ensures PasswordMatches(password, h)
  {
    Digest(password)
  }

  /** `bcrypt.compare(password, hash)`. */
  predicate PasswordMatches(password: string, hash: PasswordHash) {
    hash == Digest(password)
  }

  /** A hash matches only the password it was made from. */
  lemma HashMatchesOnlyItsPassword(password: string, other: string)
    requires PasswordMatches(other, HashPassword(password))
    ensures other == password
  {
  }

  /** What a session token carries: `{ id, orgId, name, email, role, department }`.
      `orgId` and `department` may be missing from a payload. */
  datatype Payload = Payload(
    id: nat,
    orgId: Option<nat>,
    name: string,
    email: string,
    role: string,
    department: Option<string>)

  /** The lifetime given to every token (`expiresIn: '7d'`), in seconds. */
  const TOKEN_LIFETIME: int := 7 * 24 * 60 * 60

  /** A token cookie as the server receives it: either one this server signed,
      with its expiry time, or anything else (tampered, signed with another
      secret, or not a token at all). */
  datatype Token =
    | Signed(payload: Payload, expiresAt: int)
    | Unverifiable(raw: string)

  /** `jwt.sign(payload, SECRET, { expiresIn: '7d' })` at time `now`. */
  function Sign(payload: Payload, now: int): (t: Token)
    ensures t.Signed? && t.payload == payload && t.expiresAt == now + TOKEN_LIFETIME
  {
    Signed(payload, now + TOKEN_LIFETIME)
  }

  /** `jwt.verify(token, SECRET)` at time `now`: the payload, or `None` where
      the library throws (bad signature, malformed, or expired). */
  function Verify(token: Token, now: int): (p: Option<Payload>)
    ensures p.Some? <==> token.Signed? && now < token.expiresAt
    ensures p.Some? ==> p.value == token.payload
  {
    match token
    case Signed(payload, expiresAt) => if now < expiresAt then Some(payload) else None
    case Unverifiable(_) => None
  }

  /** A token verifies to the payload it was signed with until it expires. */
  lemma VerifySign(payload: Payload, signedAt: int, now: int)
    requires now < signedAt + TOKEN_LIFETIME
    ensures Verify(Sign(payload, signedAt), now) == Some(payload)
  {
  }
}
