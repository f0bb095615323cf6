/** Resolving the caller from the session cookie, and the path-ownership check. */
module Dependencies {
  import opened Wrappers
  import opened Uuids
  import opened Models
  import opened Exceptions
  import opened Security

  /** `get_current_user`: each check exits early with the same AuthenticationError: no cookie or an empty
      one, a token that does not decode, no "sub" claim, a "sub" that is not a UUID, no such user. */
  function GetCurrentUser(accessToken: Option<string>, codec: TokenCodec, users: map<Uuid, User>, now: int): (r: Result<User, AppException>)
    ensures r.Err? ==> r.error == AuthenticationError()
    ensures r.Ok? <==>
              && accessToken.Some? && accessToken.value != []
              && codec.decode(accessToken.value, now).Some?
              && codec.decode(accessToken.value, now).value.sub.Some?
              && ParseUuid(codec.decode(accessToken.value, now).value.sub.value).Some?
              && ParseUuid(codec.decode(accessToken.value, now).value.sub.value).value in users
    ensures r.Ok? ==> r.value == users[ParseUuid(codec.decode(accessToken.value, now).value.sub.value).value]
  {
    if accessToken.None? || accessToken.value == [] then Err(AuthenticationError())
    else
      var payload := codec.decode(accessToken.value, now);
      if payload.None? then Err(AuthenticationError())
      else
        var userId := payload.value.sub;
        if userId.None? then Err(AuthenticationError())
        else
          var uid := ParseUuid(userId.value);
          if uid.None? then Err(AuthenticationError())
          else if uid.value !in users then Err(AuthenticationError())
          else Ok(users[uid.value])
  }

  /** The caller `get_current_user` resolves is a stored user, and it is the user the token's subject names. */
  lemma CurrentUserIsStored(accessToken: Option<string>, codec: TokenCodec, users: map<Uuid, User>, now: int)
    requires UsersKeyedById(users)
    requires GetCurrentUser(accessToken, codec, users, now).Ok?
    ensures var u := GetCurrentUser(accessToken, codec, users, now).value;
            u.id in users && users[u.id] == u
            && Some(u.id) == ParseUuid(codec.decode(accessToken.value, now).value.sub.value)
  {
  }

  /** A token issued for a stored user authenticates as exactly that user until it expires, and is
      refused, like any other bad credential, afterwards. */
  lemma IssuedTokenAuthenticates(codec: TokenCodec, users: map<Uuid, User>, u: User, issuedAt: int, now: int)
    requires CodecSound(codec)
    requires u.id in users && users[u.id] == u
    ensures var token := CreateAccessToken(codec, UuidToString(u.id), issuedAt);
            (now <= issuedAt + TokenLifetimeSeconds() ==> GetCurrentUser(Some(token), codec, users, now) == Ok(u))
            && (now > issuedAt + TokenLifetimeSeconds() ==> GetCurrentUser(Some(token), codec, users, now) == Err(AuthenticationError()))
  {
    IssuedTokenDecodes(codec, UuidToString(u.id), issuedAt, now);
    ParseUuidToString(u.id);
  }

  /** A token naming a user who is not stored is refused with the same error as a missing cookie. */
  lemma UnknownSubjectRefused(codec: TokenCodec, users: map<Uuid, User>, id: Uuid, issuedAt: int, now: int)
    requires CodecSound(codec)
    requires id !in users
    ensures GetCurrentUser(Some(CreateAccessToken(codec, UuidToString(id), issuedAt)), codec, users, now)
            == GetCurrentUser(None, codec, users, now)
  {
    IssuedTokenDecodes(codec, UuidToString(id), issuedAt, now);
    ParseUuidToString(id);
  }

  /** `verify_user_ownership`: AuthorizationError exactly when the path's user id is not the caller's. */
  function VerifyUserOwnership(pathUserId: Uuid, currentUser: User): (r: Outcome<AppException>)
    ensures r.Fail? <==> pathUserId != currentUser.id
    ensures r.Fail? ==> r.error == AuthorizationError() && r.error.statusCode == 403
  {
    if pathUserId != currentUser.id then Fail(AuthorizationError()) else Pass
  }

  /** The two guards fail with different kinds: 401 for who the caller is, 403 for what the caller asks. */
  lemma GuardsDistinguishable()
    ensures AuthenticationError().statusCode == 401 && AuthorizationError().statusCode == 403
    ensures AuthenticationError().code != AuthorizationError().code
  {
    KindsDistinct(Authentication, Authorization);
  }
}
