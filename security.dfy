/** The password hasher and the session-token codec, as abstract primitives with the laws the core relies on. */
module Security {
  import opened Wrappers

  /** The random salt bcrypt draws for each hash. */
  type Salt = nat

  /** `hash_password` / `verify_password`. */
  datatype PasswordHasher = PasswordHasher(hash: (string, Salt) -> string, verify: (string, string) -> bool)

  /** A hasher is sound when every password verifies against every hash made of it. */
  ghost predicate HasherSound(h: PasswordHasher)
  {
    forall password, salt :: h.verify(password, h.hash(password, salt))
  }

  /** The claims of a session token: subject and expiry instant. */
  datatype Claims = Claims(sub: Option<string>, exp: int)

  /** `jwt.encode` / `jwt.decode` with the process secret and algorithm; decoding at time `now` yields
      the claims or None (bad signature, wrong algorithm, expired, malformed). */
  datatype TokenCodec = TokenCodec(encode: Claims -> string, decode: (string, int) -> Option<Claims>)

  /** A codec is sound when a token it issued decodes to its own claims until their expiry, is rejected
      after it, and is never empty. */
  ghost predicate CodecSound(c: TokenCodec)
  {
    (forall cl: Claims, now: int :: now <= cl.exp ==> c.decode(c.encode(cl), now) == Some(cl))
    && (forall cl: Claims, now: int :: now > cl.exp ==> c.decode(c.encode(cl), now) == None)
    && (forall cl: Claims :: c.encode(cl) != [])
  }

  /** `ACCESS_TOKEN_EXPIRE_MINUTES` (its default). */
  const AccessTokenExpireMinutes: nat := 30

  /** The lifetime of a session token, in seconds. */
  function TokenLifetimeSeconds(): (r: nat)
    ensures r == 1800
  {
    AccessTokenExpireMinutes * 60
  }

  /** `create_access_token(subject)` issued at `now`: claims the subject and expires after the lifetime. */
  function CreateAccessToken(codec: TokenCodec, subject: string, now: int): (r: string)
    ensures CodecSound(codec) ==> r != [] && codec.decode(r, now) == Some(Claims(Some(subject), now + 1800))
  {
    codec.encode(Claims(Some(subject), now + TokenLifetimeSeconds()))
  }

  /** A freshly issued token decodes to its subject at any time up to its expiry, and to nothing after. */
  lemma IssuedTokenDecodes(codec: TokenCodec, subject: string, issuedAt: int, now: int)
    requires CodecSound(codec)
    ensures now <= issuedAt + 1800 ==>
              codec.decode(CreateAccessToken(codec, subject, issuedAt), now) == Some(Claims(Some(subject), issuedAt + 1800))
    ensures now > issuedAt + 1800 ==> codec.decode(CreateAccessToken(codec, subject, issuedAt), now) == None
  {
  }
}
