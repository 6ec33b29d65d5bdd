/**
 * The chirp handlers (api/routesChirps.go). The handlers call a filtered
 * `GetChirps(authorId)` and a `DeleteChirp(id)` whose bodies are not part
 * of this model; they are passed in as `getChirps` and `deleteChirp`.
 */
module ChirpRoutes {
  import opened Base
  import opened Decimal
  import opened Entities
  import opened Database
  import opened Api
  import opened Session

  /** `findChirpById`: the first fetched chirp with the id, or `errNotFound`. */
  function FindChirpById(getChirps: Option<int> -> Result<seq<Chirp>>, id: int): (r: Result<Chirp>)
    ensures getChirps(None).Failure? ==> r == Failure(getChirps(None).error)
    ensures getChirps(None).Success? ==>
              (r.Success? <==> exists j | 0 <= j < |getChirps(None).value| :: getChirps(None).value[j].id == id)
    ensures getChirps(None).Success? && r.Failure? ==> r.error == ErrChirpNotFound
    ensures r.Success? ==> r.value in getChirps(None).value && r.value.id == id
  {
    match getChirps(None)
    case Failure(e) => Failure(e)
    case Success(chirps) =>
      var i := IndexFunc(chirps, (c: Chirp) => c.id == id);
      if i == -1 then Failure(ErrChirpNotFound) else Success(chirps[i])
  }

  datatype SortOrder = Ascending | Descending

  /** The `sort` query: "" and "asc" order by id ascending, "desc" descending, anything else is refused. */
  function ParseSort(query: string): (r: Result<SortOrder>)
    ensures r == Success(Ascending) <==> query == "" || query == "asc"
    ensures r == Success(Descending) <==> query == "desc"
    ensures r.Failure? ==> r.error == ErrInvalidSort
  {
    if query != "" && query != "asc" then
      if query == "desc" then Success(Descending) else Failure(ErrInvalidSort)
    else Success(Ascending)
  }

  /** The `author_id` query: empty means no filter, otherwise it must parse as an `int`. */
  function ParseAuthorId(query: string): (r: Result<Option<int>>)
    ensures r == Success(None) <==> query == ""
    ensures r.Success? && r.value.Some? ==> Atoi(query) == Success(r.value.value)
    ensures r.Failure? <==> query != "" && Atoi(query).Failure?
    ensures r.Failure? ==> r.error == Atoi(query).error
  {
    if query == "" then Success(None)
    else match Atoi(query)
      case Failure(e) => Failure(e)
      case Success(v) => Success(Some(v))
  }

  /** The sort key: ascending ids, or descending ids as ascending negated ids. */
  function SortKey(c: Chirp, order: SortOrder): int
  {
    if order == Ascending then c.id else -c.id
  }

  /** What `sort.Slice` promises for the comparison it is given: no later element sorts before an earlier one. */
  ghost predicate SortedBy(s: seq<Chirp>, order: SortOrder)
  {
    forall i, j | 0 <= i < j < |s| :: SortKey(s[i], order) <= SortKey(s[j], order)
  }

  /** With distinct ids, a sorted listing is strictly increasing (or decreasing) in id. */
  lemma SortedStrictly(s: seq<Chirp>, order: SortOrder)
    requires SortedBy(s, order)
    requires forall i, j | 0 <= i < j < |s| :: s[i].id != s[j].id
    ensures order == Ascending ==> forall i, j | 0 <= i < j < |s| :: s[i].id < s[j].id
    ensures order == Descending ==> forall i, j | 0 <= i < j < |s| :: s[i].id > s[j].id
  {
    if order == Ascending {
      forall i, j | 0 <= i < j < |s| ensures s[i].id < s[j].id {
        assert SortKey(s[i], order) <= SortKey(s[j], order);
      }
    } else {
      forall i, j | 0 <= i < j < |s| ensures s[i].id > s[j].id {
        assert SortKey(s[i], order) <= SortKey(s[j], order);
      }
    }
  }

  /** `sort.Slice(chirps, sortFn)`, in place: an insertion sort by swaps. */
  method SortChirps(a: array<Chirp>, order: SortOrder)
    modifies a
    ensures SortedBy(a[..], order)
    ensures multiset(a[..]) == multiset(old(a[..]))
  {
    for i := 0 to a.Length
      invariant SortedBy(a[..i], order)
      invariant multiset(a[..]) == multiset(old(a[..]))
    {
      InsertLast(a, i, order);
    }
    assert a[..a.Length] == a[..];
  }

  /** One insertion step: `a[i]` moves down into the sorted prefix `a[..i]`. */
  method InsertLast(a: array<Chirp>, i: nat, order: SortOrder)
    requires i < a.Length && SortedBy(a[..i], order)
    modifies a
    ensures SortedBy(a[..i + 1], order)
    ensures multiset(a[..]) == multiset(old(a[..]))
  {
    var j := i;
    while j > 0 && SortKey(a[j], order) < SortKey(a[j - 1], order)
      invariant 0 <= j <= i
      invariant multiset(a[..]) == multiset(old(a[..]))
      invariant forall p, q | 0 <= p < q <= i && q != j :: SortKey(a[p], order) <= SortKey(a[q], order)
      invariant 0 < j < i ==> SortKey(a[j - 1], order) <= SortKey(a[j + 1], order)
      decreases j
    {
      Swap(a, j);
      j := j - 1;
    }
  }

  /** Exchanges `a[j - 1]` and `a[j]`. */
  method Swap(a: array<Chirp>, j: nat)
    requires 0 < j < a.Length
    modifies a
    ensures a[..] == old(a[..])[j - 1 := old(a[j])][j := old(a[j - 1])]
    ensures multiset(a[..]) == multiset(old(a[..]))
  {
    a[j - 1], a[j] := a[j], a[j - 1];
  }

  /**
   * `handlerListChirps`: a bad `author_id` is refused before the fetch, the
   * `sort` value only after it; the answer is the fetched chirps, reordered.
   */
  method HandlerListChirps(authorQuery: string, sortQuery: string, getChirps: Option<int> -> Result<seq<Chirp>>)
    returns (resp: Response)
    ensures ParseAuthorId(authorQuery).Failure? ==> resp == Response(400, Failed(Atoi(authorQuery).error))
    ensures ParseAuthorId(authorQuery).Success? && getChirps(ParseAuthorId(authorQuery).value).Failure? ==>
              resp == Response(500, Failed(getChirps(ParseAuthorId(authorQuery).value).error))
    ensures ParseAuthorId(authorQuery).Success? && getChirps(ParseAuthorId(authorQuery).value).Success?
            && ParseSort(sortQuery).Failure? ==>
              resp == Response(400, ErrorText("invalid sort query parameter"))
    ensures resp.status == 200 <==>
              ParseAuthorId(authorQuery).Success? && getChirps(ParseAuthorId(authorQuery).value).Success?
              && ParseSort(sortQuery).Success?
    ensures resp.status == 200 ==>
              && resp.body.ChirpList?
              && multiset(resp.body.chirps) == multiset(getChirps(ParseAuthorId(authorQuery).value).value)
              && SortedBy(resp.body.chirps, ParseSort(sortQuery).value)
  {
    var byUserId := ParseAuthorId(authorQuery);
    if byUserId.Failure? {
      return Response(400, Failed(byUserId.error));
    }
    var fetched := getChirps(byUserId.value);
    if fetched.Failure? {
      return Response(500, Failed(fetched.error));
    }
    var order := ParseSort(sortQuery);
    if order.Failure? {
      return Response(400, ErrorText("invalid sort query parameter"));
    }
    var chirps := fetched.value;
    var a := new Chirp[|chirps|](i requires 0 <= i < |chirps| => chirps[i]);
    assert a[..] == chirps;
    SortChirps(a, order.value);
    return Response(200, ChirpList(a[..]));
  }

  /**
   * `handlerGetChirp`: 400 for an id that is not an integer, 404 when no
   * fetched chirp has it, 500 for another fetch error, and 200 with the chirp found.
   */
  function HandlerGetChirp(chirpIdText: string, getChirps: Option<int> -> Result<seq<Chirp>>): (resp: Response)
    ensures Atoi(chirpIdText).Failure? ==> resp == Response(400, ErrorText("invalid integer for chirp id"))
    ensures Atoi(chirpIdText).Success? && getChirps(None).Failure? ==>
              resp == if getChirps(None).error == ErrChirpNotFound then Response(404, ErrorText("chirp not found"))
                      else Response(500, Failed(getChirps(None).error))
    ensures resp.status == 404 <==>
              Atoi(chirpIdText).Success? && FindChirpById(getChirps, Atoi(chirpIdText).value) == Failure(ErrChirpNotFound)
    ensures resp.status == 200 ==>
              && Atoi(chirpIdText).Success? && resp.body.ChirpPayload?
              && resp.body.chirp in getChirps(None).value && resp.body.chirp.id == Atoi(chirpIdText).value
    ensures Atoi(chirpIdText).Success? && FindChirpById(getChirps, Atoi(chirpIdText).value).Success? ==>
              resp == Response(200, ChirpPayload(FindChirpById(getChirps, Atoi(chirpIdText).value).value))
    ensures Atoi(chirpIdText).Success? && FindChirpById(getChirps, Atoi(chirpIdText).value).Failure? ==>
              var e := FindChirpById(getChirps, Atoi(chirpIdText).value).error;
              resp == if e == ErrChirpNotFound then Response(404, ErrorText("chirp not found")) else Response(500, Failed(e))
    ensures resp.status in {200, 400, 404, 500}
  {
    match Atoi(chirpIdText)
    case Failure(_) => Response(400, ErrorText("invalid integer for chirp id"))
    case Success(chirpId) =>
      match FindChirpById(getChirps, chirpId)
      case Failure(e) =>
        if e == ErrChirpNotFound then Response(404, ErrorText("chirp not found")) else Response(500, Failed(e))
      case Success(chirp) => Response(200, ChirpPayload(chirp))
  }

  /** The response of `handlerDeleteChirp` and the id it passed to `DeleteChirp`, if any. */
  datatype DeleteResult = DeleteResult(resp: Response, deleted: Option<int>)

  /**
   * `handlerDeleteChirp`: only an authenticated owner of an existing chirp
   * reaches `DeleteChirp`; others get 401, 400, 404, 500 (a failed fetch)
   * or 403 and nothing is deleted.
   */
  function HandlerDeleteChirp(cfg: ApiConfig, header: string, now: int, chirpIdText: string,
                              getChirps: Option<int> -> Result<seq<Chirp>>, deleteChirp: int -> Outcome): (r: DeleteResult)
    ensures IsAuthenticated(cfg, header, now).Failure? ==>
              r == DeleteResult(Response(401, Failed(IsAuthenticated(cfg, header, now).error)), None)
    ensures IsAuthenticated(cfg, header, now).Success? && Atoi(chirpIdText).Failure? ==>
              r == DeleteResult(Response(400, ErrorText("invalid integer for chirp id")), None)
    ensures r.deleted.Some? <==>
              && IsAuthenticated(cfg, header, now).Success? && Atoi(chirpIdText).Success?
              && FindChirpById(getChirps, Atoi(chirpIdText).value).Success?
              && FindChirpById(getChirps, Atoi(chirpIdText).value).value.userId == IsAuthenticated(cfg, header, now).value
    ensures r.deleted.Some? ==>
              r.deleted.value == Atoi(chirpIdText).value
              && r.resp == if deleteChirp(r.deleted.value).Pass? then Response(204, EmptyObject)
                           else Response(500, Failed(deleteChirp(r.deleted.value).error))
    ensures r.resp.status == 403 <==>
              && IsAuthenticated(cfg, header, now).Success? && Atoi(chirpIdText).Success?
              && FindChirpById(getChirps, Atoi(chirpIdText).value).Success?
              && FindChirpById(getChirps, Atoi(chirpIdText).value).value.userId != IsAuthenticated(cfg, header, now).value
    ensures r.resp.status == 404 ==> r.deleted.None? && FindChirpById(getChirps, Atoi(chirpIdText).value) == Failure(ErrChirpNotFound)
    ensures IsAuthenticated(cfg, header, now).Success? && Atoi(chirpIdText).Success?
            && FindChirpById(getChirps, Atoi(chirpIdText).value).Failure? ==>
              var e := FindChirpById(getChirps, Atoi(chirpIdText).value).error;
              r == DeleteResult(if e == ErrChirpNotFound then Response(404, ErrorText("chirp not found"))
                                else Response(500, Failed(e)), None)
    ensures IsAuthenticated(cfg, header, now).Success? && Atoi(chirpIdText).Success?
            && FindChirpById(getChirps, Atoi(chirpIdText).value).Success?
            && FindChirpById(getChirps, Atoi(chirpIdText).value).value.userId != IsAuthenticated(cfg, header, now).value ==>
              r == DeleteResult(Response(403, ErrorText("forbidden")), None)
  {
    match IsAuthenticated(cfg, header, now)
    case Failure(e) => DeleteResult(Response(401, Failed(e)), None)
    case Success(userId) =>
      match Atoi(chirpIdText)
      case Failure(_) => DeleteResult(Response(400, ErrorText("invalid integer for chirp id")), None)
      case Success(chirpId) =>
        match FindChirpById(getChirps, chirpId)
        case Failure(e) =>
          if e == ErrChirpNotFound then DeleteResult(Response(404, ErrorText("chirp not found")), None)
          else DeleteResult(Response(500, Failed(e)), None)
        case Success(chirp) =>
          if chirp.userId != userId then DeleteResult(Response(403, ErrorText("forbidden")), None)
          else match deleteChirp(chirp.id)
            case Fail(e) => DeleteResult(Response(500, Failed(e)), Some(chirp.id))
            case Pass => DeleteResult(Response(204, EmptyObject), Some(chirp.id))
  }

  /**
   * `handlerCreateChirp`: the chirp is stored with the cleaned text under
   * the authenticated user's id. An unauthenticated request, an undecodable
   * body or an over-long chirp leaves both the counter and the store alone;
   * a load or write failure (500) still uses up an id.
   */
  method HandlerCreateChirp(cfg: ApiConfig, db: DB, header: string, now: int, body: Option<string>)
    returns (resp: Response)
    modifies db`chirpLastId, db`file
    ensures IsAuthenticated(cfg, header, now).Failure? ==>
              resp == Response(401, Failed(IsAuthenticated(cfg, header, now).error))
    ensures IsAuthenticated(cfg, header, now).Success? && body.None? ==> resp == DecodeError
    ensures IsAuthenticated(cfg, header, now).Success? && body.Some? && |body.value| > MaxChirpLength ==>
              resp == Response(400, Failed(ErrChirpTooLong))
    ensures resp.status == 400 || resp.status == 401 ==> db.chirpLastId == old(db.chirpLastId)
    ensures IsAuthenticated(cfg, header, now).Success? && body.Some? && |body.value| <= MaxChirpLength
            && !(old(db.file).Stored? && db.writable) ==>
              resp.status == 500 && db.chirpLastId == old(db.chirpLastId) + 1
    ensures resp.status != 201 ==> db.file == old(db.file)
    ensures resp.status == 201 <==>
              IsAuthenticated(cfg, header, now).Success? && body.Some? && |body.value| <= MaxChirpLength
              && old(db.file).Stored? && db.writable
    ensures resp.status == 201 ==>
              var chirp := Chirp(db.chirpLastId, Cleaned(body.value), IsAuthenticated(cfg, header, now).value);
              && db.chirpLastId == old(db.chirpLastId) + 1
              && resp == Response(201, ChirpPayload(chirp))
              && db.file == Stored(WithChirp(old(db.file).doc, chirp))
  {
    var userId := IsAuthenticated(cfg, header, now);
    if userId.Failure? {
      return Response(401, Failed(userId.error));
    }
    if body.None? {
      return DecodeError;
    }
    var cleaned := ValidateChirp(body.value);
    if cleaned.Failure? {
      return Response(400, Failed(cleaned.error));
    }
    var chirp := db.CreateChirp(userId.value, cleaned.value);
    if chirp.Failure? {
      return Response(500, Failed(chirp.error));
    }
    return Response(201, ChirpPayload(chirp.value));
  }
}
