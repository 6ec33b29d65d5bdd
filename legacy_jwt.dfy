/**
 * The older token helpers (jwt.go): the caller chooses the lifetime and the
 * clock is read once, so "exp" is exactly that many seconds after "iat".
 */
module LegacyJwt {
  import opened Base
  import opened Decimal
  import Jwt

  const DefaultJwtExpirationSeconds: int := 24 * 60 * 60

  /** The claims the older `createJwt` signs, from the single reading `now`. */
  function LegacyClaims(userId: int, expiresInSeconds: int, now: int): (c: Jwt.Claims)
    ensures c.iss == "chirpy" && c.iat == now
    ensures c.exp - c.iat == expiresInSeconds
    ensures IsInt64(userId) ==> Atoi(c.sub) == Success(userId)
  {
    var c := Jwt.Claims(Jwt.Issuer, FormatInt(userId), now, now + expiresInSeconds);
    if IsInt64(userId) then AtoiFormatInt(userId); c else c
  }

  /**
   * The older `createJwt`: the token is the signature of the legacy claims
   * under `secret`, and a signing failure is the only error.
   */
  function CreateJwt(k: Jwt.Crypto, userId: int, expiresInSeconds: int, secret: string, now: int): (r: Result<string>)
    ensures r.Success? <==> k.sign(LegacyClaims(userId, expiresInSeconds, now), secret).Some?
    ensures r.Success? ==> k.sign(LegacyClaims(userId, expiresInSeconds, now), secret) == Some(r.value)
    ensures r.Failure? ==> r.error == ErrSign
  {
    match k.sign(LegacyClaims(userId, expiresInSeconds, now), secret)
    case None => Failure(ErrSign)
    case Some(token) => Success(token)
  }

  /**
   * The older `getUserIdFromJwt` has the same steps as the current one:
   * a token it issued yields the user id while `now` is before "exp", an
   * expiry error afterwards, and a text that does not verify never yields an id.
   */
  lemma LegacyJwtRoundTrip(k: Jwt.Crypto, userId: int, expiresInSeconds: int, secret: string, now: int, token: string, later: int)
    requires Jwt.SignatureSound(k)
    requires IsInt64(userId)
    requires CreateJwt(k, userId, expiresInSeconds, secret, now) == Success(token)
    ensures later < now + expiresInSeconds ==> Jwt.GetUserIdFromJwt(k, token, secret, later) == Success(userId)
    ensures later >= now + expiresInSeconds ==> Jwt.GetUserIdFromJwt(k, token, secret, later) == Failure(ErrTokenExpired)
  {
    var c := LegacyClaims(userId, expiresInSeconds, now);
    assert k.sign(c, secret) == Some(token);
    assert k.parse(token, secret) == Some(c);
  }

  /** A value that does not verify under the key is rejected before its subject is read. */
  lemma UnverifiedRejected(k: Jwt.Crypto, value: string, secret: string, now: int)
    requires k.parse(value, secret).None?
    ensures Jwt.GetUserIdFromJwt(k, value, secret, now) == Failure(ErrTokenInvalid)
  {
  }
}
