/**
 * The values that travel through a bearer token: the claims a login signs,
 * the payload a verification decodes, and the three-way outcome of an
 * authentication gate (reject, or continue to the next handler with a user).
 *
 * Signing and verifying are library calls (jsonwebtoken); every member that
 * needs them takes them as function parameters.
 */
module Tokens {
  import opened Wrappers

  /** The identity a login signs into a token: `{ id, email, role }`. */
  datatype Identity = Identity(id: int, email: string, role: string)

  /** A decoded token payload: the signed identity plus the library's `iat` and `exp`. */
  datatype Payload = Payload(id: int, email: string, role: string, iat: int, exp: int)

  /** `jwt.verify(token, secret)`: a payload, or a thrown error (bad signature, expired, malformed). */
  type Verifier = string -> Option<Payload>

  /** `jwt.sign(identity, secret, { expiresIn })`, the validity given in seconds. */
  type Signer = (Identity, int) -> string

  /** What a gate does with a request: answer 401 with a message, or call `next()` with `req.user` set. */
  datatype GateOutcome<+U> = Reject(status: nat, error: string) | Next(user: U)

  /** The two roles a user row can hold. */
  const AdminRole: string := "admin"
  const UserRole: string := "user"

  /** The HTTP status every gate rejection carries. */
  const Unauthorized: nat := 401

  /** The fields `auth.js` copies out of a payload; `iat` and `exp` are dropped. */
  function ProjectIdentity(p: Payload): Identity
  {
    Identity(p.id, p.email, p.role)
  }
}
