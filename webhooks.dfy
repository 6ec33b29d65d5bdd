/**
 * The payment-provider webhook (api/webhooks.go): an API-key check, then a
 * fixed table from event name to callback. Only "user.upgraded" changes
 * the store, by setting the user's Chirpy Red flag.
 */
module Webhooks {
  import opened Base
  import opened Strings
  import opened Entities
  import opened Database
  import opened Api

  const ApiKeyPrefix: string := "ApiKey "

  /**
   * The `data` object of a webhook, as the callback decodes it from the raw
   * JSON; `None` when it does not decode.
   */
  datatype WebhookData = WebhookData(userId: int, pause: bool)

  /** The decoded body: the event name and its still undecoded `data`. */
  datatype Payload = Payload(event: string, data: Option<WebhookData>)

  datatype Callback = OnUserUpgraded | OnUserDowngraded

  /** `polkaCallbacksMap`. */
  const PolkaCallbacks: map<string, Callback> :=
    map["user.upgraded" := OnUserUpgraded, "user.downgraded" := OnUserDowngraded]

  /** The Authorization header carries "ApiKey " followed by exactly the configured key. */
  function ApiKeyAccepted(cfg: ApiConfig, header: string): (ok: bool)
    ensures ok <==> header == ApiKeyPrefix + cfg.polkaApiKey
  {
    var (apiKey, found) := CutPrefix(header, ApiKeyPrefix);
    assert (ApiKeyPrefix + cfg.polkaApiKey)[..|ApiKeyPrefix|] == ApiKeyPrefix;
    found && apiKey == cfg.polkaApiKey
  }

  /** The callback an event runs; only the two table entries run one. */
  function CallbackFor(event: string): (r: Option<Callback>)
    ensures r == Some(OnUserUpgraded) <==> event == "user.upgraded"
    ensures r == Some(OnUserDowngraded) <==> event == "user.downgraded"
  {
    if event in PolkaCallbacks then Some(PolkaCallbacks[event]) else None
  }

  predicate HasUserId(users: map<int, User>, id: int)
  {
    exists k | k in users :: users[k].id == id
  }

  /** The user record a "user.upgraded" event writes back. */
  function Upgraded(u: User): (v: User)
    ensures v.isChirpyRed
    ensures v.(isChirpyRed := u.isChirpyRed) == u
  {
    u.(isChirpyRed := true)
  }

  /**
   * `userUpgradedCallback`: the user with the id is found among all users
   * (404 if none), its flag is set and it is written back through
   * `UpdateUser`. `target` is the stored user the lookup found.
   */
  method UserUpgradedCallback(db: DB, data: Option<WebhookData>) returns (resp: Response, ghost target: Option<User>)
    modifies db`file
    ensures data.None? ==> resp == Response(400, Failed(ErrDecode))
    ensures data.Some? && !old(db.file).Stored? ==> resp == Response(500, Failed(Load(old(db.file)).error))
    ensures target.Some? <==> data.Some? && old(db.file).Stored? && HasUserId(old(db.file).doc.users, data.value.userId)
    ensures data.Some? && old(db.file).Stored? && target.None? ==> resp == Response(404, ErrorText("user not found"))
    ensures target.Some? ==> target.value in old(db.file).doc.users.Values && target.value.id == data.value.userId
    ensures target.Some? ==> resp == if db.writable then Response(204, EmptyObject) else Response(500, Failed(ErrWrite))
    ensures resp.status != 204 ==> db.file == old(db.file)
    ensures resp.status == 204 ==>
              db.file == Stored(old(db.file).doc.(users := Replaced(old(db.file).doc.users, Upgraded(target.value))))
  {
    target := None;
    if data.None? {
      return Response(400, Failed(ErrDecode)), target;
    }
    var users, keys := db.GetUsers();
    if users.Failure? {
      return Response(500, Failed(users.error)), target;
    }
    var userId := data.value.userId;
    var i := IndexFunc(users.value, (u: User) => u.id == userId);
    ghost var stored := db.file.doc.users;
    if i == -1 {
      forall k | k in stored ensures stored[k].id != userId {
        var j := EnumeratesIndex(users.value, stored, keys, k);
      }
      return Response(404, ErrorText("user not found")), target;
    }
    var user := users.value[i];
    assert stored[keys[i]] == user;
    target := Some(user);
    var updated := db.UpdateUser(Upgraded(user));
    if updated.Failure? {
      return Response(500, Failed(updated.error)), target;
    }
    resp := Response(204, EmptyObject);
  }

  /** `userDowngradedCallback`: decodes `data` and returns; nothing is written, not even a response body. */
  function UserDowngradedCallback(data: Option<WebhookData>): (resp: Response)
    ensures data.None? <==> resp.status == 400
    ensures data.Some? ==> resp == Response(200, NoBody)
  {
    if data.None? then Response(400, Failed(ErrDecode)) else Response(200, NoBody)
  }

  /**
   * `handlerWebhookPolka`: 401 unless the key matches, 400 for a body that
   * does not decode, 204 and no change for an event the table lacks; a
   * "user.upgraded" event answers as `userUpgradedCallback` does.
   */
  method HandlerWebhookPolka(cfg: ApiConfig, db: DB, header: string, payload: Option<Payload>)
    returns (resp: Response, ghost target: Option<User>)
    modifies db`file
    ensures !ApiKeyAccepted(cfg, header) ==> resp == Response(401, ErrorText("no authorization header"))
    ensures ApiKeyAccepted(cfg, header) && payload.None? ==> resp == DecodeError
    ensures ApiKeyAccepted(cfg, header) && payload.Some? && CallbackFor(payload.value.event).None? ==>
              resp == Response(204, EmptyObject)
    ensures ApiKeyAccepted(cfg, header) && payload.Some? && payload.value.event == "user.downgraded" ==>
              resp == UserDowngradedCallback(payload.value.data)
    ensures ApiKeyAccepted(cfg, header) && payload.Some? && payload.value.event == "user.upgraded" ==>
              var data := payload.value.data;
              && (data.None? ==> resp == Response(400, Failed(ErrDecode)))
              && (data.Some? && !old(db.file).Stored? ==> resp == Response(500, Failed(Load(old(db.file)).error)))
              && (target.Some? <==> data.Some? && old(db.file).Stored? && HasUserId(old(db.file).doc.users, data.value.userId))
              && (data.Some? && old(db.file).Stored? && target.None? ==> resp == Response(404, ErrorText("user not found")))
              && (target.Some? ==> resp == if db.writable then Response(204, EmptyObject) else Response(500, Failed(ErrWrite)))
              && (resp.status == 204 ==>
                    db.file == Stored(old(db.file).doc.(users := Replaced(old(db.file).doc.users, Upgraded(target.value)))))
    ensures target.Some? ==>
              && ApiKeyAccepted(cfg, header) && payload.Some? && payload.value.event == "user.upgraded"
              && payload.value.data.Some? && old(db.file).Stored?
              && target.value in old(db.file).doc.users.Values && target.value.id == payload.value.data.value.userId
    ensures db.file != old(db.file) ==>
              target.Some? && db.file == Stored(old(db.file).doc.(users := Replaced(old(db.file).doc.users, Upgraded(target.value))))
  {
    target := None;
    if !ApiKeyAccepted(cfg, header) {
      return Response(401, ErrorText("no authorization header")), target;
    }
    if payload.None? {
      return DecodeError, target;
    }
    var callback := CallbackFor(payload.value.event);
    match callback {
      case None =>
        resp := Response(204, EmptyObject);
      case Some(OnUserUpgraded) =>
        resp, target := UserUpgradedCallback(db, payload.value.data);
      case Some(OnUserDowngraded) =>
        resp := UserDowngradedCallback(payload.value.data);
    }
  }

  /**
   * When users are keyed by id, an upgrade changes that user's entry only,
   * and only its flag.
   */
  lemma UpgradeTouchesOnlyThatUser(users: map<int, User>, u: User)
    requires forall k | k in users :: users[k].id == k
    requires u.id in users && users[u.id] == u
    ensures Replaced(users, Upgraded(u)) == users[u.id := u.(isChirpyRed := true)]
  {
    ReplacedIsPointUpdate(users, Upgraded(u));
  }

  /**
   * A repeated "user.upgraded" for the same user finds the upgraded record
   * and writes back the same map: the upgrade is idempotent.
   */
  lemma UpgradeIdempotent(users: map<int, User>, u: User, again: User)
    requires again in Replaced(users, Upgraded(u)).Values && again.id == u.id
    ensures Upgraded(again) == Upgraded(u)
    ensures Replaced(Replaced(users, Upgraded(u)), Upgraded(again)) == Replaced(users, Upgraded(u))
  {
    var once := Replaced(users, Upgraded(u));
    var k := KeyOf(once, again);
    assert again == Upgraded(u);
    var twice := Replaced(once, Upgraded(again));
    assert twice.Keys == once.Keys;
    forall k | k in twice ensures twice[k] == once[k] {
    }
  }
}
