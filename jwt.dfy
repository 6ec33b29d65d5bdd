/**
 * Access-token helpers (api/jwt.go): TTL arithmetic, the claim set, the
 * subject round trip and the hex encoding of the random refresh token.
 *
 * HMAC-SHA256 signing (section 3.2 of RFC 7518) is not modelled: a `Crypto`
 * value supplies `sign` and `parse`, and `SignatureSound` is the one fact
 * the proofs assume of them, stated as a premise where it is used.
 */
module Jwt {
  import opened Base
  import opened Decimal

  const Issuer: string := "chirpy"
  const DefaultJwtExpirationSeconds: int := 60 * 60
  const DefaultRefreshExpirationSeconds: int := 60 * 24 * 60 * 60
  const RandomTokenBytes: nat := 32

  /**
   * The registered claims of section 4.1 of RFC 7519 the tokens carry:
   * "iss" (4.1.1), "sub" (4.1.2), "exp" (4.1.4) and "iat" (4.1.6), the
   * times in whole seconds.
   */
  datatype Claims = Claims(iss: string, sub: string, iat: int, exp: int)

  /**
   * Signing and signature checking. `sign` may fail; `parse` yields the
   * claims of a well-formed token whose signature verifies under the key.
   */
  datatype Crypto = Crypto(
    sign: (Claims, string) -> Option<string>,
    parse: (string, string) -> Option<Claims>)

  /** A token signed under a key parses, under the same key, to the claims signed. */
  ghost predicate SignatureSound(k: Crypto)
  {
    forall c, key | k.sign(c, key).Some? :: k.parse(k.sign(c, key).value, key) == Some(c)
  }

  /** `buildExpiration`: the instant `seconds` after the clock reading `now`. */
  function BuildExpiration(now: int, seconds: int): (t: int)
    ensures t - now == seconds
    ensures now < t <==> 0 < seconds
  {
    now + seconds
  }

  /**
   * The claims `createJwt` signs. It reads the clock twice: `issuedAt` for
   * "iat", and `expClock`, inside `buildExpiration`, for "exp".
   */
  function AccessClaims(userId: int, issuedAt: int, expClock: int): (c: Claims)
    ensures c.iss == Issuer && c.iat == issuedAt
    ensures c.exp == expClock + DefaultJwtExpirationSeconds
    ensures IsInt64(userId) ==> Atoi(c.sub) == Success(userId)
  {
    var c := Claims(Issuer, FormatInt(userId), issuedAt, BuildExpiration(expClock, DefaultJwtExpirationSeconds));
    if IsInt64(userId) then AtoiFormatInt(userId); c else c
  }

  /**
   * `createJwt`: the token is the signature of the access claims under
   * `secret`, and a signing failure is the only error.
   */
  function CreateJwt(k: Crypto, userId: int, secret: string, issuedAt: int, expClock: int): (r: Result<string>)
    ensures r.Success? <==> k.sign(AccessClaims(userId, issuedAt, expClock), secret).Some?
    ensures r.Success? ==> k.sign(AccessClaims(userId, issuedAt, expClock), secret) == Some(r.value)
    ensures r.Failure? ==> r.error == ErrSign
  {
    match k.sign(AccessClaims(userId, issuedAt, expClock), secret)
    case None => Failure(ErrSign)
    case Some(token) => Success(token)
  }

  /**
   * `jwt.ParseWithClaims` with the default validator: the signature check is
   * `parse`; the library then rejects a token unless `now` is strictly before
   * "exp". The issuer is not checked.
   */
  function ParseJwt(k: Crypto, value: string, secret: string, now: int): (r: Result<Claims>)
    ensures r.Success? <==> k.parse(value, secret).Some? && now < k.parse(value, secret).value.exp
    ensures r.Success? ==> k.parse(value, secret) == Some(r.value)
    ensures k.parse(value, secret).None? ==> r == Failure(ErrTokenInvalid)
    ensures k.parse(value, secret).Some? && !r.Success? ==> r == Failure(ErrTokenExpired)
  {
    match k.parse(value, secret)
    case None => Failure(ErrTokenInvalid)
    case Some(c) => if now < c.exp then Success(c) else Failure(ErrTokenExpired)
  }

  /** `getUserIdFromJwt`: the verified subject as an `int`, or an error and no id. */
  function GetUserIdFromJwt(k: Crypto, value: string, secret: string, now: int): (r: Result<int>)
    ensures r.Success? ==> IsInt64(r.value)
    ensures r.Success? ==> ParseJwt(k, value, secret, now).Success?
    ensures r.Success? ==> Atoi(ParseJwt(k, value, secret, now).value.sub) == Success(r.value)
  {
    match ParseJwt(k, value, secret, now)
    case Failure(e) => Failure(e)
    case Success(c) => Atoi(c.sub)
  }

  /**
   * An access token carries issuer "chirpy", "iat" the first clock reading,
   * the decimal user id as subject, and expires one hour after the second
   * reading, hence at least one hour after "iat" when the clock does not go back.
   */
  lemma AccessClaimsShape(userId: int, issuedAt: int, expClock: int)
    requires IsInt64(userId)
    ensures var c := AccessClaims(userId, issuedAt, expClock);
            && c.iss == "chirpy" && c.iat == issuedAt
            && c.exp == expClock + 3600
            && (issuedAt <= expClock ==> c.exp - c.iat >= 3600)
            && Atoi(c.sub) == Success(userId)
  {
    AtoiFormatInt(userId);
  }

  /**
   * A token `createJwt` issued for `userId` yields `userId` until it
   * expires, and an expiry error from then on.
   */
  lemma CreatedJwtYieldsUser(k: Crypto, userId: int, secret: string, issuedAt: int, expClock: int, token: string, now: int)
    requires SignatureSound(k)
    requires IsInt64(userId)
    requires CreateJwt(k, userId, secret, issuedAt, expClock) == Success(token)
    ensures now < expClock + DefaultJwtExpirationSeconds ==> GetUserIdFromJwt(k, token, secret, now) == Success(userId)
    ensures now >= expClock + DefaultJwtExpirationSeconds ==> GetUserIdFromJwt(k, token, secret, now) == Failure(ErrTokenExpired)
  {
    var c := AccessClaims(userId, issuedAt, expClock);
    assert k.sign(c, secret) == Some(token);
    assert k.parse(token, secret) == Some(c);
    AtoiFormatInt(userId);
  }

  /** One digit of "0123456789abcdef", the table `hex.EncodeToString` uses. */
  function HexDigit(d: nat): (c: char)
    requires d < 16
    ensures IsHexDigit(c)
  {
    if d < 10 then ('0' as int + d) as char else ('a' as int + d - 10) as char
  }

  predicate IsHexDigit(c: char)
  {
    '0' <= c <= '9' || 'a' <= c <= 'f'
  }

  predicate IsLowerHex(s: string)
  {
    forall i | 0 <= i < |s| :: IsHexDigit(s[i])
  }

  /** `hex.EncodeToString`: two lowercase hex digits per byte, high nibble first. */
  function HexEncode(b: seq<byte>): (s: string)
    ensures |s| == 2 * |b|
    ensures IsLowerHex(s)
  {
    if |b| == 0 then ""
    else
      var x := b[0] as int;
      [HexDigit(x / 16), HexDigit(x % 16)] + HexEncode(b[1..])
  }

  function HexValue(c: char): (v: nat)
    requires IsHexDigit(c)
    ensures v < 16 && HexDigit(v) == c
  {
    if '0' <= c <= '9' then c as int - '0' as int else c as int - 'a' as int + 10
  }

  /** The inverse of `HexEncode` on lowercase hex text of even length. */
  function HexDecode(s: string): Option<seq<byte>>
    decreases |s|
  {
    if |s| == 0 then Some([])
    else if |s| == 1 || !IsHexDigit(s[0]) || !IsHexDigit(s[1]) then None
    else match HexDecode(s[2..])
      case None => None
      case Some(rest) => Some([(HexValue(s[0]) * 16 + HexValue(s[1])) as byte] + rest)
  }

  lemma HexValueOfDigit(d: nat)
    requires d < 16
    ensures HexValue(HexDigit(d)) == d
  {
  }

  /** The two digits written for a byte are its high and low nibble. */
  lemma HexByteRoundTrip(b: byte)
    ensures var x := b as int;
            x / 16 < 16 && HexValue(HexDigit(x / 16)) * 16 + HexValue(HexDigit(x % 16)) == x
  {
    var x := b as int;
    var hi, lo := x / 16, x % 16;
    assert hi * 16 + lo == x && hi < 16;
    HexValueOfDigit(hi);
    HexValueOfDigit(lo);
  }

  lemma {:induction false} HexRoundTrip(b: seq<byte>)
    ensures HexDecode(HexEncode(b)) == Some(b)
  {
    if |b| > 0 {
      var x := b[0] as int;
      HexByteRoundTrip(b[0]);
      var hi, lo := HexDigit(x / 16), HexDigit(x % 16);
      var rest := HexEncode(b[1..]);
      var s := [hi, lo] + rest;
      assert HexEncode(b) == s;
      assert s[0] == hi && s[1] == lo && s[2..] == rest;
      HexRoundTrip(b[1..]);
      assert (HexValue(hi) * 16 + HexValue(lo)) as byte == b[0];
      assert [b[0]] + b[1..] == b;
    }
  }

  /** Distinct random buffers never give the same token text. */
  lemma HexEncodeInjective(a: seq<byte>, b: seq<byte>)
    requires HexEncode(a) == HexEncode(b)
    ensures a == b
  {
    HexRoundTrip(a);
    HexRoundTrip(b);
  }

  /**
   * `buildRandomToken`: the bytes `rand.Read` put in the 32-byte buffer, or
   * None when the read failed, hex-encoded.
   */
  function BuildRandomToken(random: Option<seq<byte>>): (r: Result<string>)
    requires random.Some? ==> |random.value| == RandomTokenBytes
    ensures random.None? <==> r.Failure?
    ensures r.Failure? ==> r.error == ErrRandom
    ensures r.Success? ==> |r.value| == 64 && IsLowerHex(r.value)
    ensures r.Success? ==> HexDecode(r.value) == Some(random.value)
  {
    match random
    case None => Failure(ErrRandom)
    case Some(bytes) =>
      HexRoundTrip(bytes);
      Success(HexEncode(bytes))
  }
}
