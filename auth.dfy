/**
 * Identity resolution (`get_current_user`, main.py:108-117) and the account
 * check of `login` (main.py:130-136). Token signing and password hashing are
 * opaque: a bearer token is represented by what decoding it yields, and the
 * password check by its boolean verdict.
 */
module Auth {
  import opened Wrappers

  /** The outcome of `jwt.decode`: a `JWTError`, or a payload whose `sub` may be absent. */
  datatype Claims = Undecodable | Decoded(sub: Option<string>)

  /** What `login` answers: a token carrying the given claims, or HTTP 400. */
  datatype LoginResult = Issued(claims: Claims) | Rejected(status: nat, detail: string)

  /**
   * The registered user a request acts as, or `None` for the 401 raised when
   * the token does not decode, carries no `sub`, or names nobody registered.
   */
  function Resolve(users: set<string>, claims: Claims): (user: Option<string>)
    ensures user.Some? <==> claims.Decoded? && claims.sub.Some? && claims.sub.value in users
    ensures user.Some? ==> user == claims.sub && user.value in users
  {
    match claims
    case Undecodable => None
    case Decoded(sub) =>
      if sub.Some? && sub.value in users then sub else None
  }

  /** `login`: a token for `username` when it is registered and the password verifies. */
  function Login(users: set<string>, username: string, passwordVerifies: bool): (r: LoginResult)
    ensures r.Issued? <==> username in users && passwordVerifies
    ensures r.Rejected? ==> r == Rejected(400, "Incorrect username or password")
  {
    if username in users && passwordVerifies then Issued(Decoded(Some(username)))
    else Rejected(400, "Incorrect username or password")
  }

  /** A token issued by `login` resolves back to the user who logged in. */
  lemma LoginTokenResolves(users: set<string>, username: string, passwordVerifies: bool)
    requires Login(users, username, passwordVerifies).Issued?
    ensures Resolve(users, Login(users, username, passwordVerifies).claims) == Some(username)
  {
  }

  /** A token stays valid while its user stays registered: nobody is ever unregistered. */
  lemma ResolveMonotone(users: set<string>, more: set<string>, claims: Claims)
    requires users <= more
    requires Resolve(users, claims).Some?
    ensures Resolve(more, claims) == Resolve(users, claims)
  {
  }
}
