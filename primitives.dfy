/** The libraries the authentication core calls but does not implement (jsonwebtoken,
    bcryptjs, node:crypto's sha256, express-validator's isEmail/isJWT/normalizeEmail), as opaque functions
    handed to every operation that uses them, plus the token lifetimes of
    backend/src/config/jwt.config.js. */
module Primitives {
  import opened Prelude

  /** A document id (MongoDB ObjectId); ids are never falsy. */
  type Id = nat

  /** The claims of a decoded token that this code reads: `id` and `role`, each of which may
      be absent from the payload. */
  datatype Claims = Claims(id: Option<Id>, role: Option<string>)

  /** What jwt.verify does: return the payload, or throw an error with a `name`
      (JsonWebTokenError, TokenExpiredError, ...) and a `message`. */
  datatype Verification = Verified(claims: Claims) | Rejected(name: string, message: string)

  type Salt = string

  /** A bcrypt digest ("$2a$10$" + 53 characters): always 60 characters long. */
  type BcryptDigest = s: string | |s| == 60
    witness "$2a$10$abcdefghijklmnopqrstuvwxyzABCDEFGHIJKLMNOPQRSTUVWXYZ0"

  /** The library functions, as total functions:
      - sha256Hex(s): crypto.createHash('sha256').update(s).digest('hex');
      - bcryptHash(plain, salt): bcrypt.hash(plain, salt), salt from bcrypt.genSalt(10);
      - bcryptCompare(plain, digest): bcrypt.compare;
      - jwtSign(claims, secret, iat, lifetime): jwt.sign(claims, secret, {expiresIn}), with the
        issue time `iat` and the lifetime in whole seconds, as jsonwebtoken writes them into
        the payload; HS256 is deterministic, so the token is a function of these alone;
      - jwtVerify(token, secret, now): jwt.verify(token, secret) at time `now`;
      - isEmail, isJwt: express-validator's format checks;
      - normalizeEmail: express-validator's canonicalisation of an address. */
  datatype Primitives = Primitives(
    sha256Hex: string -> string,
    bcryptHash: (string, Salt) -> BcryptDigest,
    bcryptCompare: (string, string) -> bool,
    jwtSign: (Claims, string, int, int) -> string,
    jwtVerify: (string, string, int) -> Verification,
    isEmail: string -> bool,
    isJwt: string -> bool,
    normalizeEmail: string -> string)

  /** The signing secrets, loaded once from the environment (JWT_SECRET, JWT_REFRESH_SECRET). */
  datatype JwtConfig = JwtConfig(secret: string, refreshSecret: string)

  /** expiresIn '15m' and refreshExpiresIn '7d', in milliseconds. */
  const AccessTtl: int := 15 * 60 * 1000
  const RefreshTtl: int := 7 * 24 * 60 * 60 * 1000

  const JsonWebTokenError: string := "JsonWebTokenError"

  /** jsonwebtoken counts in whole seconds: a token signed at `issuedAt` (milliseconds, as
      Date.now() gives) carries iat = floor(issuedAt / 1000) and exp = iat + ttl / 1000, and
      verifying it at `now` throws TokenExpiredError once floor(now / 1000) >= exp. */
  predicate TokenLive(issuedAt: int, ttl: int, now: int)
  {
    now / 1000 < issuedAt / 1000 + ttl / 1000
  }

  /** The second-granular expiry cuts a lifetime short by up to 999 ms: a 15-minute token
      signed 1.5 s into the epoch is dead 899.5 s after it was signed. */
  lemma TokenDiesUpToASecondEarly()
    ensures TokenLive(1500, AccessTtl, 900999) && !TokenLive(1500, AccessTtl, 901000)
    ensures 901000 < 1500 + AccessTtl
  {
  }

  /** What jsonwebtoken guarantees and the lemmas about whole sessions rely on: a token
      verifies to its own claims with its own secret until the second of its expiry (the
      issue time and lifetime are in seconds, see `TokenLive`); with any other secret
      verification fails with a JsonWebTokenError ("invalid signature"); a token is a
      non-empty string without white space (base64url segments joined by dots) that isJWT
      accepts. */
  ghost predicate JwtSound(p: Primitives)
  {
    && (forall c, k, iat, ttl, now :: now / 1000 < iat + ttl ==>
          p.jwtVerify(p.jwtSign(c, k, iat, ttl), k, now) == Verified(c))
    && (forall c, k, k', iat, ttl, now :: k != k' ==>
          p.jwtVerify(p.jwtSign(c, k, iat, ttl), k', now).Rejected? &&
          p.jwtVerify(p.jwtSign(c, k, iat, ttl), k', now).name == JsonWebTokenError)
    && (forall c, k, iat, ttl :: JwtShaped(p.jwtSign(c, k, iat, ttl)) && p.isJwt(p.jwtSign(c, k, iat, ttl)))
  }

  /** A compact JWS: non-empty, no white space. */
  predicate JwtShaped(t: string)
  {
    t != [] && forall i :: 0 <= i < |t| ==> !IsSpace(t[i])
  }

  // ---------------------------------------------------------------------------
  // Buffer.prototype.toString('hex'), used on crypto.randomBytes(32)

  predicate IsLowerHexDigit(c: char)
  {
    '0' <= c <= '9' || 'a' <= c <= 'f'
  }

  function HexDigit(n: nat): (c: char)
    requires n < 16
    ensures IsLowerHexDigit(c)
  {
    if n < 10 then ('0' as int + n) as char else ('a' as int + n - 10) as char
  }

  function HighNibble(b: bv8): (n: nat)
    ensures n < 16
  {
    b as nat / 16
  }

  function LowNibble(b: bv8): (n: nat)
    ensures n < 16
  {
    b as nat % 16
  }

  /** Two lower-case hexadecimal digits per byte, most significant first. */
  function HexOfBytes(bytes: seq<bv8>): (r: string)
    ensures |r| == 2 * |bytes|
    ensures forall k :: 0 <= k < |r| ==> IsLowerHexDigit(r[k])
  {
    if bytes == [] then []
    else [HexDigit(HighNibble(bytes[0])), HexDigit(LowNibble(bytes[0]))] + HexOfBytes(bytes[1..])
  }

  lemma HexDigitInjective(m: nat, n: nat)
    requires m < 16 && n < 16 && HexDigit(m) == HexDigit(n)
    ensures m == n
  {
  }

  /** A byte is determined by its two nibbles. */
  lemma DigitsDetermineByte(x: bv8, y: bv8)
    requires HighNibble(x) == HighNibble(y) && LowNibble(x) == LowNibble(y)
    ensures x == y
  {
    assert x as nat == 16 * HighNibble(x) + LowNibble(x);
    assert y as nat == 16 * HighNibble(y) + LowNibble(y);
  }

  lemma HexOfBytesUnfold(a: seq<bv8>)
    requires a != []
    ensures HexOfBytes(a)[0] == HexDigit(HighNibble(a[0])) && HexOfBytes(a)[1] == HexDigit(LowNibble(a[0]))
    ensures HexOfBytes(a)[2..] == HexOfBytes(a[1..])
  {
  }

  /** The first two digits give the first byte back; the rest gives the rest. */
  lemma HexOfBytesHead(a: seq<bv8>, b: seq<bv8>)
    requires a != [] && b != [] && HexOfBytes(a) == HexOfBytes(b)
    ensures a[0] == b[0] && HexOfBytes(a[1..]) == HexOfBytes(b[1..])
  {
    HexOfBytesUnfold(a);
    HexOfBytesUnfold(b);
    HexDigitInjective(HighNibble(a[0]), HighNibble(b[0]));
    HexDigitInjective(LowNibble(a[0]), LowNibble(b[0]));
    DigitsDetermineByte(a[0], b[0]);
  }

  /** Different byte strings give different hexadecimal strings, so the token mailed for one
      draw of random bytes is never the token of another. */
  lemma {:induction false} HexOfBytesInjective(a: seq<bv8>, b: seq<bv8>)
    requires HexOfBytes(a) == HexOfBytes(b)
    ensures a == b
  {
    if a != [] {
      HexOfBytesHead(a, b);
      HexOfBytesInjective(a[1..], b[1..]);
      assert a == [a[0]] + a[1..] && b == [b[0]] + b[1..];
    }
  }

}
