/**
 * Signed, time-limited tokens (a JSON Web Token, RFC 7519, signed with HS256,
 * section 3.2 of RFC 7518) seen only through what signing and verification promise.
 * No cryptography is modelled: a `Codec` is a signer together with its verifier
 * for the one process-wide secret, and `Sound` says what an honest one guarantees.
 */
module Tokens {
  import opened Wrappers
  import opened Records

  /** Lifetime of an access token, "1m", in seconds. */
  const AccessTtl: int := 60
  /** Lifetime of a refresh token, "30d", in seconds. */
  const RefreshTtl: int := 30 * 24 * 60 * 60
  /** The refresh cookie's `maxAge`, in milliseconds. */
  const RefreshCookieMaxAgeMs: int := 30 * 24 * 60 * 60 * 1000

  /** The payload `{id}` with the `iat` and `exp` claims added at signing (seconds). */
  datatype Claims = Claims(id: Id, iat: int, exp: int)

  /** Why verification refused a token. */
  datatype TokenError = Malformed | BadSignature | Expired

  /**
   * `sign` turns claims into the compact serialisation signed with the secret;
   * `open` parses a string and checks its signature, yielding its claims.
   */
  datatype Codec = Codec(sign: Claims -> string, open: string -> Result<Claims, TokenError>)

  /** Characters a compact serialisation can hold never include a space. */
  predicate CompactText(s: string)
  {
    |s| > 0 && ' ' !in s
  }

  /**
   * An honest signer and verifier over one secret: opening a signed token returns
   * its claims, only signed tokens open (no forgery), opening never judges expiry,
   * and signed tokens are nonempty and free of spaces.
   */
  ghost predicate Sound(k: Codec)
  {
    && (forall c :: k.open(k.sign(c)) == Ok(c))
    && (forall s :: k.open(s).Ok? ==> k.sign(k.open(s).value) == s)
    && (forall s :: k.open(s).Err? ==> k.open(s).error != Expired)
    && (forall c :: CompactText(k.sign(c)))
  }

  /** `generateToken({id}, ttl)` at time `now`: claims `iat = now`, `exp = now + ttl`. */
  function Issue(k: Codec, id: Id, ttl: int, now: int): (token: string)
    ensures Sound(k) ==> k.open(token) == Ok(Claims(id, now, now + ttl)) && CompactText(token)
  {
    k.sign(Claims(id, now, now + ttl))
  }

  /** `jwtVerify(token, secret)` at time `now`: the subject while `now < exp`. */
  function Verify(k: Codec, token: string, now: int): (r: Result<Id, TokenError>)
    ensures r.Ok? ==> k.open(token).Ok? && r.value == k.open(token).value.id && now < k.open(token).value.exp
    ensures k.open(token).Ok? && now >= k.open(token).value.exp ==> r == Err(Expired)
  {
    match k.open(token)
    case Err(e) => Err(e)
    case Ok(c) => if now < c.exp then Ok(c.id) else Err(Expired)
  }

  /** A token issued for `id` verifies to `id` exactly until its lifetime has run out, and then as expired. */
  lemma VerifyIssued(k: Codec, id: Id, ttl: int, now: int, t: int)
    requires Sound(k)
    ensures Verify(k, Issue(k, id, ttl, now), t) == if t < now + ttl then Ok(id) else Err(Expired)
  {
    assert k.open(k.sign(Claims(id, now, now + ttl))) == Ok(Claims(id, now, now + ttl));
  }

  /** Whatever verifies was issued: it is the signing of claims for that subject that are still live. */
  lemma VerifiedWasIssued(k: Codec, token: string, t: int)
    requires Sound(k)
    requires Verify(k, token, t).Ok?
    ensures exists c :: token == k.sign(c) && c.id == Verify(k, token, t).value && t < c.exp
  {
    var c := k.open(token).value;
    assert token == k.sign(c);
  }

  /** A token that opens but has passed its `exp` fails as expired, never as another kind of failure. */
  lemma ExpiredIsExpired(k: Codec, token: string, t: int)
    requires Sound(k)
    requires Verify(k, token, t).Err?
    ensures Verify(k, token, t).error == Expired <==> k.open(token).Ok? && t >= k.open(token).value.exp
  {
  }

  /** The empty string is never a valid token. */
  lemma EmptyNeverVerifies(k: Codec, t: int)
    requires Sound(k)
    ensures Verify(k, "", t).Err?
  {
  }

  /** The cookie's `maxAge` (milliseconds) is the refresh token's lifetime (seconds). */
  lemma CookieLifetimeMatchesRefreshTtl()
    ensures RefreshCookieMaxAgeMs == RefreshTtl * 1000
    ensures RefreshTtl == 2592000 && AccessTtl == 60
  {
  }
}
