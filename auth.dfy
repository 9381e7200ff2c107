/** Authentication: resolving the caller from the `access_token` cookie, the
    login handler that issues that cookie, and the `/me` handler. */
module Auth {
  import opened Http
  import opened Tables
  import opened Crypto

  /** The cookie that carries the access token. */
  const AccessCookie: string := "access_token"

  /** The body of `/register` and `/login`. */
  datatype Credentials = Credentials(email: string, password: string)

  datatype Cookie = Cookie(name: string, value: string)

  /** A successful login: the token returned in the body and the cookie set on the response. */
  datatype Session = Session(accessToken: string, cookie: Cookie)

  /** The body of `/me`. */
  datatype Profile = Profile(email: string, id: int)

  /** Reference definition of "the request proves to be `u`": the cookie holds a
      non-empty token that decodes, its subject claim is non-empty, and it is the
      email of the stored user `u`. */
  ghost predicate Authenticates(users: seq<User>, cookies: map<string, string>, ts: TokenService, u: User)
  {
    && u in users
    && AccessCookie in cookies
    && cookies[AccessCookie] != ""
    && var claims := ts.decode(cookies[AccessCookie]);
    && claims.Some?
    && SubjectClaim in claims.value
    && claims.value[SubjectClaim] != ""
    && claims.value[SubjectClaim] == u.email
  }

  /** The `get_current_user` dependency: a user when every step succeeds, and 401
      when the cookie is missing or empty, the token does not decode, the payload
      has no non-empty subject, or no user has that email. */
  function Authenticate(users: seq<User>, cookies: map<string, string>, ts: TokenService): (r: Reply<User>)
    ensures r.Ok? ==> Authenticates(users, cookies, ts, r.value)
    ensures r.Err? ==> r.error == Unauthorized
    ensures r.Err? ==> forall u :: u in users ==> !Authenticates(users, cookies, ts, u)
  {
    if AccessCookie !in cookies || cookies[AccessCookie] == "" then Err(Unauthorized)
    else match ts.decode(cookies[AccessCookie])
      case None => Err(Unauthorized)
      case Some(claims) =>
        if SubjectClaim !in claims || claims[SubjectClaim] == "" then Err(Unauthorized)
        else match FindUserByEmail(users, claims[SubjectClaim])
          case None => Err(Unauthorized)
          case Some(u) => Ok(u)
  }

  /** Under the unique email constraint a request authenticates as at most one user. */
  lemma AuthenticatedUserIsUnique(users: seq<User>, cookies: map<string, string>, ts: TokenService, u: User, v: User)
    requires EmailsUnique(users)
    requires Authenticates(users, cookies, ts, u) && Authenticates(users, cookies, ts, v)
    ensures u == v
  {
    SameEmailSameUser(users, u, v);
  }

  /** The `/login` handler: 401 when no user has the email or the password does
      not verify against the stored hash; otherwise a token for the user's email,
      returned in the body and set as the `access_token` cookie. */
  function Login(users: seq<User>, cred: Credentials, ts: TokenService, hasher: PasswordHasher): (r: Reply<Session>)
    ensures r.Err? ==> r.error == Unauthorized
    ensures (forall u :: u in users ==> u.email != cred.email) ==> r == Err(Unauthorized)
    ensures r.Ok? ==> exists u :: u in users && u.email == cred.email && hasher.verify(cred.password, u.passwordHash)
    ensures r.Ok? ==> r.value.accessToken == ts.issue(cred.email)
    ensures r.Ok? ==> r.value.cookie == Cookie(AccessCookie, r.value.accessToken)
  {
    match FindUserByEmail(users, cred.email)
    case None => Err(Unauthorized)
    case Some(u) =>
      if !hasher.verify(cred.password, u.passwordHash) then Err(Unauthorized)
      else
        var token := ts.issue(u.email);
        Ok(Session(token, Cookie(AccessCookie, token)))
  }

  /** Under the unique email constraint, login succeeds exactly when a stored
      user has the email and the password verifies against that user's hash. */
  lemma LoginIffPasswordVerifies(users: seq<User>, cred: Credentials, ts: TokenService, hasher: PasswordHasher)
    requires EmailsUnique(users)
    ensures Login(users, cred, ts, hasher).Ok?
        <==> exists u :: u in users && u.email == cred.email && hasher.verify(cred.password, u.passwordHash)
  {
    if u :| u in users && u.email == cred.email && hasher.verify(cred.password, u.passwordHash) {
      var i :| 0 <= i < |users| && users[i] == u;
      FindStoredEmail(users, i);
    }
  }

  /** The `/me` handler: the caller's email and id, or 401. */
  function Me(users: seq<User>, cookies: map<string, string>, ts: TokenService): (r: Reply<Profile>)
    ensures r.Err? ==> r.error == Unauthorized
    ensures r.Err? ==> forall u :: u in users ==> !Authenticates(users, cookies, ts, u)
    ensures r.Ok? ==> exists u :: Authenticates(users, cookies, ts, u) && r.value == Profile(u.email, u.id)
  {
    match Authenticate(users, cookies, ts)
    case Err(e) => Err(e)
    case Ok(u) => Ok(Profile(u.email, u.id))
  }

  /** A registration followed by a login with the same credentials succeeds. */
  lemma RegisterThenLogin(users: seq<User>, cred: Credentials, salt: string, ts: TokenService, hasher: PasswordHasher)
    requires UsersValid(users)
    requires FindUserByEmail(users, cred.email).None?
    requires VerifiesOwnHash(hasher)
    ensures Login(WithUser(users, cred.email, hasher.hash(cred.password, salt)), cred, ts, hasher).Ok?
  {
    WithUserKeepsValid(users, cred.email, hasher.hash(cred.password, salt));
  }

  /** Presenting the cookie a login set authenticates the request as the user
      that logged in. */
  lemma LoginCookieAuthenticates(users: seq<User>, cred: Credentials, ts: TokenService, hasher: PasswordHasher)
    requires IssuedTokensDecode(ts)
    requires cred.email != ""
    requires Login(users, cred, ts, hasher).Ok?
    ensures FindUserByEmail(users, cred.email).Some?
    ensures Authenticate(users, map[AccessCookie := Login(users, cred, ts, hasher).value.cookie.value], ts)
         == Ok(FindUserByEmail(users, cred.email).value)
  {
    var token := ts.issue(cred.email);
    assert ts.decode(token).Some? && ts.decode(token).value[SubjectClaim] == cred.email;
  }

  /** A login followed by `/me` with the cookie it set answers with the email
      that logged in and that user's id. */
  lemma LoginThenMe(users: seq<User>, cred: Credentials, ts: TokenService, hasher: PasswordHasher)
    requires IssuedTokensDecode(ts)
    requires cred.email != ""
    requires Login(users, cred, ts, hasher).Ok?
    ensures FindUserByEmail(users, cred.email).Some?
    ensures Me(users, map[AccessCookie := Login(users, cred, ts, hasher).value.cookie.value], ts)
         == Ok(Profile(cred.email, FindUserByEmail(users, cred.email).value.id))
  {
    LoginCookieAuthenticates(users, cred, ts, hasher);
  }
}
