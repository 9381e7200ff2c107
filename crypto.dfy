/** The two cryptographic collaborators of the handlers, kept abstract: the JWT
    service (HS256 signing and verification per RFC 7519 and section 3.2 of
    RFC 7518) and the bcrypt password hasher. Each is a record of functions that
    the handlers receive as a parameter; the only facts the model relies on are
    the soundness predicates below. */
module Crypto {
  import opened Http

  /** The payload of a decoded token: its string-valued claims. */
  type Claims = map<string, string>

  /** The claim that names the token's subject. */
  const SubjectClaim: string := "sub"

  /** `issue` creates an access token for a subject; `decode` checks the token's
      HS256 signature under the server secret and returns its payload, or None
      when the token is malformed, wrongly signed or signed with another algorithm. */
  datatype TokenService = TokenService(issue: string -> string, decode: string -> Option<Claims>)

  /** A token the service issued is a non-empty string that decodes to a payload
      whose subject is the one it was issued for. */
  ghost predicate IssuedTokensDecode(ts: TokenService)
  {
    forall subject: string ::
      && ts.issue(subject) != ""
      && ts.decode(ts.issue(subject)).Some?
      && SubjectClaim in ts.decode(ts.issue(subject)).value
      && ts.decode(ts.issue(subject)).value[SubjectClaim] == subject
  }

  /** `hash(password, salt)` is bcrypt with the given salt; `verify(password, hash)`
      checks a password against a stored hash. */
  datatype PasswordHasher = PasswordHasher(hash: (string, string) -> string, verify: (string, string) -> bool)

  /** A password always verifies against a hash made from it, whatever the salt. */
  ghost predicate VerifiesOwnHash(h: PasswordHasher)
  {
    forall password: string, salt: string :: h.verify(password, h.hash(password, salt))
  }
}
