/** The authentication endpoints: sign-up, sign-in, sign-out, and the session cookie they set. */
module AuthRoutes {
  import opened Wrappers
  import opened Uuids
  import opened Models
  import opened Schemas
  import opened Exceptions
  import opened Security
  import opened Dependencies
  import Text

  /** A `Set-Cookie` instruction. */
  datatype Cookie = Cookie(key: string, value: string, httpOnly: bool, secure: bool, sameSite: string, maxAge: int)

  /** `_set_auth_cookie`: the token in an http-only, same-site "lax" cookie named "access_token" that lives
      `ACCESS_TOKEN_EXPIRE_MINUTES * 60` seconds. */
  function AuthCookie(token: string): (c: Cookie)
    ensures c.key == "access_token" && c.value == token && c.httpOnly && !c.secure && c.sameSite == "lax"
    ensures c.maxAge == 1800
  {
    Cookie("access_token", token, true, false, "lax", AccessTokenExpireMinutes * 60)
  }

  /** The cookie is dropped by the browser at the moment the token inside it expires. */
  lemma CookieExpiresWithToken(codec: TokenCodec, subject: string, issuedAt: int)
    ensures var token := CreateAccessToken(codec, subject, issuedAt);
            token == codec.encode(Claims(Some(subject), issuedAt + AuthCookie(token).maxAge))
  {
  }

  /** What sign-up and sign-in answer: the body and the cookie. */
  datatype AuthReply = AuthReply(body: AuthResponse, cookie: Cookie)

  /** The reply for `user`: a token whose subject is `str(user.id)`, in the body and in the cookie. */
  function ReplyFor(codec: TokenCodec, user: User, now: int): (r: AuthReply)
    ensures r.body.user == UserResponse(user.id, user.email)
    ensures r.body.accessToken == CreateAccessToken(codec, UuidToString(user.id), now)
    ensures r.cookie == AuthCookie(r.body.accessToken)
  {
    var token := CreateAccessToken(codec, UuidToString(user.id), now);
    AuthReply(AuthResponse(UserResponse(user.id, user.email), token), AuthCookie(token))
  }

  /** Some stored user has the email `email`. */
  ghost predicate EmailTaken(users: map<Uuid, User>, email: string)
  {
    exists id :: id in users && users[id].email == email
  }

  /** `signup`: the email is lower-cased; if a user with that email exists the call fails with
      ConflictError("Account creation failed") and stores nothing; otherwise a user with that email and the
      password's hash is stored under the fresh id `newId` and a token naming it is returned. */
  method Signup(db: Db, data: SignupRequest, hasher: PasswordHasher, codec: TokenCodec, newId: Uuid, salt: Salt, now: int)
    returns (r: Result<AuthReply, AppException>)
    requires db.Valid() && ValidSignupRequest(data) && newId !in db.users
    modifies db
    ensures db.Valid() && db.tasks == old(db.tasks)
    ensures EmailTaken(old(db.users), Text.Lower(data.email)) ==>
              r == Err(ConflictError("Account creation failed")) && db.users == old(db.users)
    ensures !EmailTaken(old(db.users), Text.Lower(data.email)) ==>
              && db.users == old(db.users)[newId := NewUser(newId, Text.Lower(data.email), hasher.hash(data.password, salt), now)]
              && r == Ok(ReplyFor(codec, db.users[newId], now))
  {
    var email := Text.Lower(data.email);
    if exists id :: id in db.users && db.users[id].email == email {
      return Err(ConflictError("Account creation failed"));
    }
    var user := NewUser(newId, email, hasher.hash(data.password, salt), now);
    db.users := db.users[newId := user];
    r := Ok(ReplyFor(codec, user, now));
  }

  /** Some stored user has the lower-cased `email` and `password` verifies against that user's hash. */
  ghost predicate CanSignIn(users: map<Uuid, User>, email: string, password: string, hasher: PasswordHasher)
  {
    exists id :: id in users && users[id].email == Text.Lower(email) && hasher.verify(password, users[id].hashedPassword)
  }

  /** `signin`: looks the user up by lower-cased email and checks the password; an unknown email and a wrong
      password fail with the same AuthenticationError("Invalid credentials"). Nothing is stored. */
  method Signin(users: map<Uuid, User>, data: SigninRequest, hasher: PasswordHasher, codec: TokenCodec, now: int)
    returns (r: Result<AuthReply, AppException>)
    requires UsersKeyedById(users) && UniqueEmails(users) && ValidSigninRequest(data)
    ensures r.Ok? <==> CanSignIn(users, data.email, data.password, hasher)
    ensures r.Ok? ==> exists id :: id in users && users[id].email == Text.Lower(data.email)
                                   && r.value == ReplyFor(codec, users[id], now)
    ensures r.Err? ==> r.error == AuthenticationError("Invalid credentials")
  {
    var email := Text.Lower(data.email);
    if !exists id :: id in users && users[id].email == email {
      return Err(AuthenticationError("Invalid credentials"));
    }
    var id :| id in users && users[id].email == email;
    var user := users[id];
    if !hasher.verify(data.password, user.hashedPassword) {
      return Err(AuthenticationError("Invalid credentials"));
    }
    r := Ok(ReplyFor(codec, user, now));
  }

  /** Signing up adds a user whose email differs from every stored one, so emails stay pairwise
      distinct across any sequence of sign-ups. */
  lemma SignupKeepsEmailsUnique(users: map<Uuid, User>, u: User)
    requires UniqueEmails(users) && u.id !in users && !EmailTaken(users, u.email)
    ensures UniqueEmails(users[u.id := u])
  {
  }

  /** Any spelling of an address differing only in case is a conflict once the address is taken. */
  lemma CaseVariantConflicts(users: map<Uuid, User>, email: string, variant: string)
    requires EmailTaken(users, Text.Lower(email)) && Text.EqualIgnoringCase(email, variant)
    ensures EmailTaken(users, Text.Lower(variant))
  {
    Text.LowerEqualIff(email, variant);
  }

  /** Round trip: after signing up with `email` and `password`, signing in with the same password and any
      case variant of the email succeeds, when the hasher verifies its own hashes. */
  lemma SignupThenSignin(users: map<Uuid, User>, data: SignupRequest, variant: string, hasher: PasswordHasher,
                         newId: Uuid, salt: Salt, now: int)
    requires HasherSound(hasher) && Text.EqualIgnoringCase(data.email, variant)
    ensures CanSignIn(users[newId := NewUser(newId, Text.Lower(data.email), hasher.hash(data.password, salt), now)],
                      variant, data.password, hasher)
  {
    Text.LowerEqualIff(data.email, variant);
    var u := NewUser(newId, Text.Lower(data.email), hasher.hash(data.password, salt), now);
    assert newId in users[newId := u] && users[newId := u][newId].email == Text.Lower(variant);
  }

  /** The token sign-up or sign-in returns authenticates as the user it names for the token's lifetime. */
  lemma ReplyTokenAuthenticates(codec: TokenCodec, users: map<Uuid, User>, u: User, issuedAt: int, now: int)
    requires CodecSound(codec) && u.id in users && users[u.id] == u
    requires issuedAt <= now <= issuedAt + TokenLifetimeSeconds()
    ensures GetCurrentUser(Some(ReplyFor(codec, u, issuedAt).body.accessToken), codec, users, now) == Ok(u)
  {
    IssuedTokenAuthenticates(codec, users, u, issuedAt, now);
  }

  /** What sign-out answers: a status and the names of the cookies the reply tells the browser to delete. */
  datatype SignoutReply = SignoutReply(statusCode: int, deletedCookies: set<string>)

  /** The browser's cookies after it receives `reply`. */
  function ApplyReply(jar: map<string, string>, reply: SignoutReply): (after: map<string, string>)
    ensures after.Keys == jar.Keys - reply.deletedCookies
    ensures forall k :: k in after ==> after[k] == jar[k]
  {
    jar - reply.deletedCookies
  }

  /** The session cookie the browser sends with its next request. */
  function SessionCookie(jar: map<string, string>): Option<string>
  {
    if "access_token" in jar then Some(jar["access_token"]) else None
  }

  /** `signout` as written: the handler deletes the cookie on the response object it was handed, but returns
      a new bare 204 response, and only the returned object reaches the browser. */
  function SignoutAsWritten(accessToken: Option<string>, codec: TokenCodec, users: map<Uuid, User>, now: int)
    : (r: Result<SignoutReply, AppException>)
    ensures r.Ok? <==> GetCurrentUser(accessToken, codec, users, now).Ok?
    ensures r.Ok? ==> r.value.statusCode == 204 && r.value.deletedCookies == {}
    ensures r.Err? ==> r.error == AuthenticationError()
  {
    match GetCurrentUser(accessToken, codec, users, now)
    case Err(e) => Err(e)
    case Ok(_) => Ok(SignoutReply(204, {}))
  }

  /** As written, a signed-in browser that signs out is still signed in: its next request carries the same
      cookie and resolves to the same user. */
  lemma SignoutAsWrittenKeepsSession(jar: map<string, string>, codec: TokenCodec, users: map<Uuid, User>, now: int)
    requires GetCurrentUser(SessionCookie(jar), codec, users, now).Ok?
    ensures SignoutAsWritten(SessionCookie(jar), codec, users, now).Ok?
    ensures var after := ApplyReply(jar, SignoutAsWritten(SessionCookie(jar), codec, users, now).value);
            GetCurrentUser(SessionCookie(after), codec, users, now) == GetCurrentUser(SessionCookie(jar), codec, users, now)
  {
    var after := ApplyReply(jar, SignoutAsWritten(SessionCookie(jar), codec, users, now).value);
    assert after == jar;
  }

  /** `signout` as intended: requires an authenticated caller, answers 204 and deletes the session cookie. */
  function Signout(accessToken: Option<string>, codec: TokenCodec, users: map<Uuid, User>, now: int)
    : (r: Result<SignoutReply, AppException>)
    ensures r.Ok? <==> GetCurrentUser(accessToken, codec, users, now).Ok?
    ensures r.Ok? ==> r.value == SignoutReply(204, {"access_token"})
    ensures r.Err? ==> r.error == AuthenticationError()
  {
    match GetCurrentUser(accessToken, codec, users, now)
    case Err(e) => Err(e)
    case Ok(_) => Ok(SignoutReply(204, {"access_token"}))
  }

  /** After the intended sign-out the browser sends no session cookie, so its next request is refused with
      AuthenticationError, and every other cookie is kept. */
  lemma SignoutEndsSession(jar: map<string, string>, codec: TokenCodec, users: map<Uuid, User>, now: int)
    requires GetCurrentUser(SessionCookie(jar), codec, users, now).Ok?
    ensures Signout(SessionCookie(jar), codec, users, now).Ok?
    ensures var after := ApplyReply(jar, Signout(SessionCookie(jar), codec, users, now).value);
            && GetCurrentUser(SessionCookie(after), codec, users, now) == Err(AuthenticationError())
            && after.Keys == jar.Keys - {"access_token"}
  {
    var after := ApplyReply(jar, Signout(SessionCookie(jar), codec, users, now).value);
    assert "access_token" !in after;
  }
}
