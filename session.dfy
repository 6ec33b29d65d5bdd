/**
 * The session handlers (api/routesAuth.go): the bearer-token check, login,
 * refresh and revoke, as transitions of the refresh-token collection. All
 * clock readings within one request are taken to be the same `now`, in
 * whole seconds.
 */
module Session {
  import opened Base
  import opened Strings
  import opened Entities
  import opened Database
  import opened Api
  import Jwt
  import Decimal

  const BearerPrefix: string := "Bearer "

  /** The decoded body of a login request. */
  datatype LoginRequest = LoginRequest(email: string, password: string)

  /**
   * `isAuthenticated`: the user id in the access token that follows
   * "Bearer " in the Authorization header. A missing prefix and any token
   * error are reported as two fixed errors, never as the JWT error itself.
   */
  function IsAuthenticated(cfg: ApiConfig, header: string, now: int): (r: Result<int>)
    ensures r.Success? <==>
              BearerPrefix <= header
              && Jwt.GetUserIdFromJwt(cfg.crypto, header[|BearerPrefix|..], cfg.jwtSecret, now).Success?
    ensures r.Success? ==>
              Jwt.GetUserIdFromJwt(cfg.crypto, header[|BearerPrefix|..], cfg.jwtSecret, now) == Success(r.value)
    ensures r.Failure? ==> r.error == if BearerPrefix <= header then ErrUnauthorized else ErrNoAuthHeader
  {
    var (tokenStr, found) := CutPrefix(header, BearerPrefix);
    if !found then Failure(ErrNoAuthHeader)
    else match Jwt.GetUserIdFromJwt(cfg.crypto, tokenStr, cfg.jwtSecret, now)
      case Failure(_) => Failure(ErrUnauthorized)
      case Success(userId) => Success(userId)
  }

  /**
   * An access token issued for `userId` and sent as "Bearer <token>"
   * authenticates that user until it expires, and is unauthorized afterwards.
   */
  lemma IssuedTokenAuthenticates(cfg: ApiConfig, userId: int, issuedAt: int, expClock: int, token: string, now: int)
    requires Jwt.SignatureSound(cfg.crypto)
    requires Decimal.IsInt64(userId)
    requires Jwt.CreateJwt(cfg.crypto, userId, cfg.jwtSecret, issuedAt, expClock) == Success(token)
    ensures now < expClock + Jwt.DefaultJwtExpirationSeconds ==>
              IsAuthenticated(cfg, BearerPrefix + token, now) == Success(userId)
    ensures now >= expClock + Jwt.DefaultJwtExpirationSeconds ==>
              IsAuthenticated(cfg, BearerPrefix + token, now) == Failure(ErrUnauthorized)
  {
    Jwt.CreatedJwtYieldsUser(cfg.crypto, userId, cfg.jwtSecret, issuedAt, expClock, token, now);
    assert (BearerPrefix + token)[|BearerPrefix|..] == token;
  }

  /**
   * `handlerLogin`. The user is looked up by the lowercased request email
   * (404 when none matches), the password is checked (401), then an access
   * token and a random refresh token are made and the refresh token is
   * saved for the user, replacing any earlier one, expiring 60 days from
   * now. `who` is the stored user the lookup found.
   */
  method HandlerLogin(cfg: ApiConfig, db: DB, req: Option<LoginRequest>, now: int, random: Option<seq<byte>>)
    returns (resp: Response, ghost who: Option<User>)
    requires random.Some? ==> |random.value| == Jwt.RandomTokenBytes
    modifies db`file
    ensures req.None? ==> resp == DecodeError
    ensures req.Some? && !old(db.file).Stored? ==> resp == Response(500, Failed(Load(old(db.file)).error))
    ensures who.Some? <==>
              req.Some? && old(db.file).Stored? && EmailTaken(old(db.file).doc.users, ToLower(req.value.email))
    ensures req.Some? && old(db.file).Stored? && who.None? ==> resp == Response(404, ErrorText("user not found"))
    ensures who.Some? ==>
              who.value in old(db.file).doc.users.Values && who.value.email == ToLower(req.value.email)
    ensures who.Some? && !cfg.passwordMatches(who.value.password, req.value.password) ==>
              resp == Response(401, ErrorText("unauthorized"))
    ensures who.Some? && cfg.passwordMatches(who.value.password, req.value.password) ==>
              var signed := Jwt.CreateJwt(cfg.crypto, who.value.id, cfg.jwtSecret, now, now);
              resp == if signed.Failure? then Response(500, Failed(ErrSign))
                      else if random.None? then Response(500, Failed(ErrRandom))
                      else if !db.writable then Response(500, Failed(ErrWrite))
                      else Response(200, LoginPayload(who.value.id, who.value.email, who.value.isChirpyRed, signed.value, Jwt.HexEncode(random.value)))
    ensures resp.status != 200 ==> db.file == old(db.file)
    ensures resp.status == 200 ==>
              && who.Some? && random.Some?
              && db.file == Stored(WithToken(old(db.file).doc,
                   RefreshToken(who.value.id, Jwt.HexEncode(random.value), now + Jwt.DefaultRefreshExpirationSeconds)))
  {
    who := None;
    if req.None? {
      return DecodeError, who;
    }
    var users, keys := db.GetUsers();
    if users.Failure? {
      return Response(500, Failed(users.error)), who;
    }
    var email := ToLower(req.value.email);
    var i := IndexFunc(users.value, (u: User) => u.email == email);
    ghost var stored := db.file.doc.users;
    if i == -1 {
      forall k | k in stored ensures stored[k].email != email {
        var j := EnumeratesIndex(users.value, stored, keys, k);
      }
      return Response(404, ErrorText("user not found")), who;
    }
    var user := users.value[i];
    assert stored[keys[i]] == user;
    who := Some(user);
    if !cfg.passwordMatches(user.password, req.value.password) {
      return Response(401, ErrorText("unauthorized")), who;
    }
    var signed := Jwt.CreateJwt(cfg.crypto, user.id, cfg.jwtSecret, now, now);
    if signed.Failure? {
      return Response(500, Failed(signed.error)), who;
    }
    var refreshStr := Jwt.BuildRandomToken(random);
    if refreshStr.Failure? {
      return Response(500, Failed(refreshStr.error)), who;
    }
    var saved := db.SaveRefreshToken(user.id, refreshStr.value, Jwt.BuildExpiration(now, Jwt.DefaultRefreshExpirationSeconds));
    if saved.Failure? {
      return Response(500, Failed(saved.error)), who;
    }
    resp := Response(200, LoginPayload(user.id, user.email, user.isChirpyRed, signed.value, saved.value.token));
  }

  /**
   * `handlerRefresh`: a new access token for the owner of a stored refresh
   * token that has not expired. `ExpiresAt.Before(now)` is strict, so a
   * token is still accepted at the second it expires. Nothing is written,
   * so the refresh token is neither deleted nor rotated. `record` is the
   * stored record the lookup found.
   */
  method HandlerRefresh(cfg: ApiConfig, db: DB, header: string, now: int)
    returns (resp: Response, ghost record: Option<RefreshToken>)
    ensures !(BearerPrefix <= header) ==> resp == Response(401, ErrorText("no authorization header"))
    ensures record.Some? <==>
              BearerPrefix <= header && db.file.Stored?
              && TokenHeld(db.file.doc.refreshTokens, header[|BearerPrefix|..])
    ensures record.Some? ==>
              record.value in db.file.doc.refreshTokens.Values && record.value.token == header[|BearerPrefix|..]
    ensures BearerPrefix <= header && !db.file.Stored? ==> resp == Response(401, Failed(Load(db.file).error))
    ensures BearerPrefix <= header && db.file.Stored? && record.None? ==>
              resp == Response(401, Failed(ErrRefreshTokenNotFound))
    ensures record.Some? && record.value.expiresAt < now ==> resp == Response(401, ErrorText("token expired"))
    ensures record.Some? && now <= record.value.expiresAt ==>
              var signed := Jwt.CreateJwt(cfg.crypto, record.value.userId, cfg.jwtSecret, now, now);
              resp == if signed.Success? then Response(200, AccessToken(signed.value)) else Response(500, Failed(ErrSign))
  {
    record := None;
    var (refreshStr, found) := CutPrefix(header, BearerPrefix);
    if !found {
      return Response(401, ErrorText("no authorization header")), record;
    }
    var refreshObj := db.GetRefreshToken(refreshStr);
    if refreshObj.Failure? {
      return Response(401, Failed(refreshObj.error)), record;
    }
    record := Some(refreshObj.value);
    if refreshObj.value.expiresAt < now {
      return Response(401, ErrorText("token expired")), record;
    }
    var signed := Jwt.CreateJwt(cfg.crypto, refreshObj.value.userId, cfg.jwtSecret, now, now);
    if signed.Failure? {
      return Response(500, Failed(signed.error)), record;
    }
    resp := Response(200, AccessToken(signed.value));
  }

  /** The response `handlerRevoke` writes once `DeleteRefreshToken` has returned. */
  function RevokeResponse(o: Outcome): Response
  {
    match o
    case Pass => Response(204, EmptyObject)
    case Fail(e) => Response(401, Failed(e))
  }

  /**
   * `handlerRevoke` as written. Without the "Bearer " prefix it writes the
   * 401 response but does not return: `CutPrefix` left the whole header as
   * the token text, and a stored token equal to it is still deleted, after
   * which a second response is written. `writes` lists the responses in
   * the order written; the client sees the first status.
   */
  method HandlerRevoke(db: DB, header: string) returns (writes: seq<Response>, ghost removed: Option<RefreshToken>)
    modifies db`file
    ensures var (token, found) := CutPrefix(header, BearerPrefix);
            && (removed.Some? <==> old(db.file).Stored? && TokenHeld(old(db.file).doc.refreshTokens, token))
            && (removed.Some? ==> removed.value in old(db.file).doc.refreshTokens.Values && removed.value.token == token)
            && (found ==> |writes| == 1)
            && (!found ==> |writes| == 2 && writes[0] == Response(401, ErrorText("no authorization header")))
    ensures |writes| >= 1
    ensures !old(db.file).Stored? ==> writes[|writes| - 1] == Response(401, Failed(Load(old(db.file)).error))
    ensures old(db.file).Stored? && removed.None? ==>
              writes[|writes| - 1] == Response(401, Failed(ErrRefreshTokenNotFound))
    ensures removed.Some? ==>
              writes[|writes| - 1] == if db.writable then Response(204, EmptyObject) else Response(401, Failed(ErrWrite))
    ensures db.file == if removed.Some? && db.writable
                       then Stored(WithoutToken(old(db.file).doc, removed.value.userId))
                       else old(db.file)
  {
    writes := [];
    var (refreshStr, found) := CutPrefix(header, BearerPrefix);
    if !found {
      writes := writes + [Response(401, ErrorText("no authorization header"))];
    }
    var o;
    o, removed := db.DeleteRefreshToken(refreshStr);
    writes := writes + [RevokeResponse(o)];
  }

  /** `handlerRevoke` with the missing `return`: a request without the prefix deletes nothing. */
  method HandlerRevokeChecked(db: DB, header: string) returns (resp: Response, ghost removed: Option<RefreshToken>)
    modifies db`file
    ensures !(BearerPrefix <= header) ==>
              resp == Response(401, ErrorText("no authorization header")) && removed.None? && db.file == old(db.file)
    ensures removed.Some? <==>
              BearerPrefix <= header && old(db.file).Stored?
              && TokenHeld(old(db.file).doc.refreshTokens, header[|BearerPrefix|..])
    ensures removed.Some? ==>
              removed.value in old(db.file).doc.refreshTokens.Values && removed.value.token == header[|BearerPrefix|..]
    ensures BearerPrefix <= header && !old(db.file).Stored? ==> resp == Response(401, Failed(Load(old(db.file)).error))
    ensures BearerPrefix <= header && old(db.file).Stored? && removed.None? ==>
              resp == Response(401, Failed(ErrRefreshTokenNotFound))
    ensures removed.Some? ==> resp == if db.writable then Response(204, EmptyObject) else Response(401, Failed(ErrWrite))
    ensures db.file == if removed.Some? && db.writable
                       then Stored(WithoutToken(old(db.file).doc, removed.value.userId))
                       else old(db.file)
  {
    removed := None;
    var (refreshStr, found) := CutPrefix(header, BearerPrefix);
    if !found {
      return Response(401, ErrorText("no authorization header")), removed;
    }
    var o;
    o, removed := db.DeleteRefreshToken(refreshStr);
    resp := RevokeResponse(o);
  }

  /** The store the revoke scenarios start from: user 1 holds refresh token "abc". */
  function OneSession(): Document
  {
    EmptyDocument.(refreshTokens := map[1 := RefreshToken(1, "abc", 100)])
  }

  /**
   * Revoke as written, sent the bare token "abc" with no "Bearer " prefix:
   * the client is told 401, yet the session is gone.
   */
  method RevokeWithoutBearerDeletes() returns (writes: seq<Response>, stillHeld: bool)
    ensures writes == [Response(401, ErrorText("no authorization header")), Response(204, EmptyObject)]
    ensures !stillHeld
  {
    var db := new DB(Stored(OneSession()), true);
    assert OneSession().refreshTokens[1].token == "abc";
    ghost var removed;
    writes, removed := HandlerRevoke(db, "abc");
    ghost var owner := KeyOf(OneSession().refreshTokens, removed.value);
    assert db.file.doc.refreshTokens == map[];
    stillHeld := db.file.Stored? && TokenHeld(db.file.doc.refreshTokens, "abc");
  }

  /** The corrected revoke, sent the same request, answers 401 and keeps the session. */
  method RevokeCheckedWithoutBearerKeeps() returns (resp: Response, stillHeld: bool)
    ensures resp == Response(401, ErrorText("no authorization header"))
    ensures stillHeld
  {
    var db := new DB(Stored(OneSession()), true);
    ghost var removed;
    resp, removed := HandlerRevokeChecked(db, "abc");
    assert db.file.doc.refreshTokens[1].token == "abc";
    stillHeld := db.file.Stored? && TokenHeld(db.file.doc.refreshTokens, "abc");
  }
}
