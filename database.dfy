/**
 * The document store (internal/database/db.go, chirps.go, users.go, tokens.go).
 *
 * A `DB` holds the two id counters and stands for the backing file: `file`
 * is what reading it yields and `writable` whether writing it succeeds.
 * `loadDB` becomes `Load(file)`, and `writeDB` replaces `file`. Every
 * mutating operation is load, then change in memory, then write.
 */
module Database {
  import opened Base
  import opened Entities

  /** The persisted document: chirps and users keyed by id, refresh tokens by owner id. */
  datatype Document = Document(
    chirps: map<int, Chirp>,
    users: map<int, User>,
    refreshTokens: map<int, RefreshToken>)

  const EmptyDocument: Document := Document(map[], map[], map[])

  /** What reading the backing file yields. */
  datatype FileState =
    | Absent               // os.ReadFile fails with "not exist"
    | Unreadable           // os.ReadFile fails otherwise
    | Garbled              // the bytes read do not decode as a document
    | Stored(doc: Document)

  /** `os.ReadFile` alone, as `ensureDB` uses it: only the read can fail. */
  function ReadFile(file: FileState): Outcome
  {
    match file
    case Absent => Fail(ErrNotExist)
    case Unreadable => Fail(ErrRead)
    case _ => Pass
  }

  /**
   * `loadDB`: read, then decode. Only a stored document loads; a read
   * failure is the error `ReadFile` reports, and bytes that read but do
   * not decode are a decode error.
   */
  function Load(file: FileState): (r: Result<Document>)
    ensures r.Success? <==> file.Stored?
    ensures r.Success? ==> r.value == file.doc
    ensures ReadFile(file).Fail? ==> r == Failure(ReadFile(file).error)
    ensures ReadFile(file).Pass? && !file.Stored? ==> r == Failure(ErrDecode)
  {
    match file
    case Absent => Failure(ErrNotExist)
    case Unreadable => Failure(ErrRead)
    case Garbled => Failure(ErrDecode)
    case Stored(doc) => Success(doc)
  }

  // ----- The document after each mutation -----

  /** `dbObj.Chirps[chirp.Id] = chirp`. */
  function WithChirp(d: Document, c: Chirp): Document
  {
    d.(chirps := d.chirps[c.id := c])
  }

  /** `dbObj.Users[user.Id] = user`. */
  function WithUser(d: Document, u: User): Document
  {
    d.(users := d.users[u.id := u])
  }

  /** The `UpdateUser` loop: every entry whose `Id` is `user.Id` becomes `user`. */
  function Replaced(users: map<int, User>, user: User): map<int, User>
  {
    map k | k in users :: if users[k].id == user.id then user else users[k]
  }

  /** `dbObj.RefreshTokens[t.UserId] = t`. */
  function WithToken(d: Document, t: RefreshToken): Document
  {
    d.(refreshTokens := d.refreshTokens[t.userId := t])
  }

  /** `delete(dbObj.RefreshTokens, owner)`. */
  function WithoutToken(d: Document, owner: int): Document
  {
    d.(refreshTokens := d.refreshTokens - {owner})
  }

  predicate EmailTaken(users: map<int, User>, email: string)
  {
    exists k | k in users :: users[k].email == email
  }

  predicate TokenHeld(tokens: map<int, RefreshToken>, token: string)
  {
    exists k | k in tokens :: tokens[k].token == token
  }

  // ----- Invariants of a document -----

  /** Every record is stored under its own id (a refresh token under its owner's). */
  ghost predicate KeyedById(d: Document)
  {
    && (forall k | k in d.chirps :: d.chirps[k].id == k)
    && (forall k | k in d.users :: d.users[k].id == k)
    && (forall k | k in d.refreshTokens :: d.refreshTokens[k].userId == k)
  }

  ghost predicate DistinctEmails(users: map<int, User>)
  {
    forall j, k | j in users && k in users && j != k :: users[j].email != users[k].email
  }

  ghost predicate DistinctTokens(tokens: map<int, RefreshToken>)
  {
    forall j, k | j in tokens && k in tokens && j != k :: tokens[j].token != tokens[k].token
  }

  /** No stored key exceeds the counter, so the next id is fresh. */
  ghost predicate KeysAtMost<T>(m: map<int, T>, last: int)
  {
    forall k | k in m :: k <= last
  }

  /** `values` lists `m`'s entries once each, in the order of `keys`. */
  ghost predicate Enumerates<T>(values: seq<T>, m: map<int, T>, keys: seq<int>)
  {
    && |keys| == |values|
    && (forall i | 0 <= i < |keys| :: keys[i] in m && values[i] == m[keys[i]])
    && (forall i, j | 0 <= i < j < |keys| :: keys[i] != keys[j])
    && (forall k | k in m :: k in keys)
  }

  // ----- Loops over a loaded collection -----

  /** A non-empty set has a member; the loops below pick one per step, as `range` does. */
  lemma Member<T>(s: set<T>) returns (x: T)
    requires s != {}
    ensures x in s
  {
    x :| x in s;
  }

  /** `for _, value := range m { out = append(out, value) }`, in Go's unspecified order. */
  method ValuesOf<T>(m: map<int, T>) returns (values: seq<T>, ghost keys: seq<int>)
    ensures Enumerates(values, m, keys)
  {
    values, keys := [], [];
    var remaining := m.Keys;
    while remaining != {}
      invariant remaining <= m.Keys
      invariant |keys| == |values|
      invariant forall i | 0 <= i < |keys| :: keys[i] in m && keys[i] !in remaining && values[i] == m[keys[i]]
      invariant forall i, j | 0 <= i < j < |keys| :: keys[i] != keys[j]
      invariant forall k | k in m && k !in remaining :: k in keys
      decreases remaining
    {
      ghost var some := Member(remaining);  // a witness, so that the choice below provably exists
      var k :| k in remaining;
      values, keys := values + [m[k]], keys + [k];
      remaining := remaining - {k};
    }
  }

  /** `findUserByEmail`: some user with exactly that email, or none. */
  method FindUserByEmail(users: map<int, User>, email: string) returns (found: Option<User>)
    ensures found.Some? ==> found.value in users.Values && found.value.email == email
    ensures found.None? <==> !EmailTaken(users, email)
  {
    var remaining := users.Keys;
    while remaining != {}
      invariant remaining <= users.Keys
      invariant forall k | k in users && k !in remaining :: users[k].email != email
      decreases remaining
    {
      ghost var some := Member(remaining);  // a witness, so that the choice below provably exists
      var k :| k in remaining;
      if users[k].email == email {
        return Some(users[k]);
      }
      remaining := remaining - {k};
    }
    return None;
  }

  /** `findRefreshTokenByToken`: some stored record with that token value, or none. */
  method FindRefreshTokenByToken(tokens: map<int, RefreshToken>, token: string) returns (found: Option<RefreshToken>)
    ensures found.Some? ==> found.value in tokens.Values && found.value.token == token
    ensures found.None? <==> !TokenHeld(tokens, token)
  {
    var remaining := tokens.Keys;
    while remaining != {}
      invariant remaining <= tokens.Keys
      invariant forall k | k in tokens && k !in remaining :: tokens[k].token != token
      decreases remaining
    {
      ghost var some := Member(remaining);  // a witness, so that the choice below provably exists
      var k :| k in remaining;
      if tokens[k].token == token {
        return Some(tokens[k]);
      }
      remaining := remaining - {k};
    }
    return None;
  }

  /** The `UpdateUser` loop, assigning into the loaded map while ranging over it. */
  method ReplaceMatching(users: map<int, User>, user: User) returns (updated: map<int, User>)
    ensures updated == Replaced(users, user)
  {
    updated := users;
    var remaining := users.Keys;
    while remaining != {}
      invariant remaining <= users.Keys
      invariant updated.Keys == users.Keys
      invariant forall k | k in remaining :: updated[k] == users[k]
      invariant forall k | k in users && k !in remaining ::
                  updated[k] == if users[k].id == user.id then user else users[k]
      decreases remaining
    {
      ghost var some := Member(remaining);  // a witness, so that the choice below provably exists
      var k :| k in remaining;
      if users[k].id == user.id {
        updated := updated[k := user];
      }
      remaining := remaining - {k};
    }
    var spec := Replaced(users, user);
    assert updated.Keys == spec.Keys;
    assert forall k | k in spec :: updated[k] == spec[k];
  }

  /** The largest key, or 0 for an empty collection. */
  method MaxKey<T>(m: map<int, T>) returns (max: int)
    ensures KeysAtMost(m, max)
    ensures max == 0 || max in m
    ensures 0 <= max
  {
    max := 0;
    var remaining := m.Keys;
    while remaining != {}
      invariant remaining <= m.Keys
      invariant 0 <= max && (max == 0 || max in m)
      invariant forall k | k in m && k !in remaining :: k <= max
      decreases remaining
    {
      ghost var some := Member(remaining);  // a witness, so that the choice below provably exists
      var k :| k in remaining;
      if k > max {
        max := k;
      }
      remaining := remaining - {k};
    }
  }

  class DB {
    var chirpLastId: int
    var userLastId: int
    var file: FileState
    const writable: bool

    /** Both counters ahead of every stored key: the next ids are fresh. */
    ghost predicate CountersAhead()
      reads this
    {
      file.Stored? ==>
        KeysAtMost(file.doc.chirps, chirpLastId) && KeysAtMost(file.doc.users, userLastId)
    }

    /** The `DB` value `NewDB` builds, before `ensureDB` runs. */
    constructor (file: FileState, writable: bool)
      ensures this.file == file && this.writable == writable
      ensures chirpLastId == 0 && userLastId == 0
    {
      this.file := file;
      this.writable := writable;
      chirpLastId := 0;
      userLastId := 0;
    }

    /**
     * `NewDB`: both counters start at 0 whatever the file holds, then
     * `ensureDB` runs; its error is returned instead of the `DB`.
     */
    static method NewDB(file: FileState, writable: bool) returns (r: Result<DB>)
      ensures r.Success? <==> file != Unreadable && (file == Absent ==> writable)
      ensures r.Failure? ==> r.error == (if file == Unreadable then ErrRead else ErrWrite)
      ensures r.Success? ==> fresh(r.value) && r.value.writable == writable
      ensures r.Success? ==> r.value.chirpLastId == 0 && r.value.userLastId == 0
      ensures r.Success? ==> r.value.file == if file == Absent then Stored(EmptyDocument) else file
    {
      var db := new DB(file, writable);
      var o := db.EnsureDB();
      if o.Fail? {
        return Failure(o.error);
      }
      return Success(db);
    }

    /**
     * A `NewDB` that seeds each counter with the largest id already stored,
     * so that ids are not handed out twice across restarts.
     */
    static method NewDBSeeded(file: FileState, writable: bool) returns (r: Result<DB>)
      ensures r.Success? <==> file != Unreadable && (file == Absent ==> writable)
      ensures r.Failure? ==> r.error == (if file == Unreadable then ErrRead else ErrWrite)
      ensures r.Success? ==> fresh(r.value) && r.value.writable == writable
      ensures r.Success? ==> r.value.file == if file == Absent then Stored(EmptyDocument) else file
      ensures r.Success? ==> r.value.CountersAhead()
      ensures r.Success? ==> 0 <= r.value.chirpLastId && 0 <= r.value.userLastId
      ensures r.Success? && r.value.chirpLastId != 0 ==> r.value.file.Stored? && r.value.chirpLastId in r.value.file.doc.chirps
      ensures r.Success? && r.value.userLastId != 0 ==> r.value.file.Stored? && r.value.userLastId in r.value.file.doc.users
    {
      var db := new DB(file, writable);
      var o := db.EnsureDB();
      if o.Fail? {
        return Failure(o.error);
      }
      if db.file.Stored? {
        db.chirpLastId := MaxKey(db.file.doc.chirps);
        db.userLastId := MaxKey(db.file.doc.users);
      }
      return Success(db);
    }

    /**
     * `ensureDB`: a file that can be read is left alone, even one that does
     * not decode; a missing file is replaced by an empty document; any other
     * read error is returned and nothing is written.
     */
    method EnsureDB() returns (o: Outcome)
      modifies this`file
      ensures old(file) != Absent ==> file == old(file)
      ensures old(file) == Unreadable ==> o == Fail(ErrRead)
      ensures old(file).Stored? || old(file) == Garbled ==> o == Pass
      ensures old(file) == Absent ==>
                if writable then o == Pass && file == Stored(EmptyDocument)
                else o == Fail(ErrWrite) && file == Absent
    {
      var read := ReadFile(file);
      if read.Pass? {
        return Pass;
      }
      if read.error != ErrNotExist {
        return read;
      }
      o := WriteDB(EmptyDocument);
    }

    /** `writeDB`: the whole document replaces the file, or the write fails and nothing changes. */
    method WriteDB(doc: Document) returns (o: Outcome)
      modifies this`file
      ensures o == if writable then Pass else Fail(ErrWrite)
      ensures file == if writable then Stored(doc) else old(file)
      ensures o.Pass? ==> Load(file) == Success(doc)
    {
      if !writable {
        return Fail(ErrWrite);
      }
      file := Stored(doc);
      return Pass;
    }

    /**
     * `CreateChirp`: the counter is incremented first, so a failed load or
     * write still uses up the id; on success the chirp is stored under it.
     */
    method CreateChirp(userId: int, body: string) returns (r: Result<Chirp>)
      modifies this`chirpLastId, this`file
      ensures chirpLastId == old(chirpLastId) + 1
      ensures r.Success? <==> old(file).Stored? && writable
      ensures r.Success? ==> r.value == Chirp(chirpLastId, body, userId)
      ensures r.Success? ==> file == Stored(WithChirp(old(file).doc, r.value))
      ensures r.Failure? ==> file == old(file)
      ensures !old(file).Stored? ==> r == Failure(Load(old(file)).error)
      ensures old(file).Stored? && !writable ==> r == Failure(ErrWrite)
      ensures old(CountersAhead()) ==> CountersAhead()
      ensures old(CountersAhead()) && r.Success? ==> r.value.id !in old(file).doc.chirps
    {
      chirpLastId := chirpLastId + 1;
      var chirp := Chirp(chirpLastId, body, userId);
      var loaded := Load(file);
      if loaded.Failure? {
        return Failure(loaded.error);
      }
      var o := WriteDB(WithChirp(loaded.value, chirp));
      if o.Fail? {
        return Failure(o.error);
      }
      return Success(chirp);
    }

    /** The older `CreateChirp(body)` of db.go: the same steps, with no owner. */
    method LegacyCreateChirp(body: string) returns (r: Result<Chirp>)
      modifies this`chirpLastId, this`file
      ensures chirpLastId == old(chirpLastId) + 1
      ensures r.Success? <==> old(file).Stored? && writable
      ensures r.Success? ==> r.value == Chirp(chirpLastId, body, 0)
      ensures r.Success? ==> file == Stored(WithChirp(old(file).doc, r.value))
      ensures r.Failure? ==> file == old(file)
    {
      r := CreateChirp(0, body);
    }

    /** `GetChirps`: every stored chirp once, in unspecified order. */
    method GetChirps() returns (r: Result<seq<Chirp>>, ghost keys: seq<int>)
      ensures !file.Stored? ==> r == Failure(Load(file).error)
      ensures file.Stored? ==> r.Success? && Enumerates(r.value, file.doc.chirps, keys)
    {
      keys := [];
      var loaded := Load(file);
      if loaded.Failure? {
        return Failure(loaded.error), keys;
      }
      var chirps;
      chirps, keys := ValuesOf(loaded.value.chirps);
      return Success(chirps), keys;
    }

    /**
     * `CreateUser`: a duplicate email is rejected before the counter moves;
     * otherwise the counter is incremented and the user stored under it.
     */
    method CreateUser(email: string, password: string) returns (r: Result<User>)
      modifies this`userLastId, this`file
      ensures !old(file).Stored? ==>
                r == Failure(Load(old(file)).error) && userLastId == old(userLastId)
      ensures old(file).Stored? && EmailTaken(old(file).doc.users, email) ==>
                r == Failure(ErrDuplicateUser) && userLastId == old(userLastId)
      ensures old(file).Stored? && !EmailTaken(old(file).doc.users, email) ==>
                && userLastId == old(userLastId) + 1
                && r == (if writable then Success(User(userLastId, email, password, false)) else Failure(ErrWrite))
      ensures r.Success? ==> file == Stored(WithUser(old(file).doc, r.value))
      ensures r.Failure? ==> file == old(file)
      ensures old(CountersAhead()) ==> CountersAhead()
      ensures old(CountersAhead()) && r.Success? ==> r.value.id !in old(file).doc.users
    {
      var loaded := Load(file);
      if loaded.Failure? {
        return Failure(loaded.error);
      }
      var existing := FindUserByEmail(loaded.value.users, email);
      if existing.Some? {
        return Failure(ErrDuplicateUser);
      }
      userLastId := userLastId + 1;
      var user := User(userLastId, email, password, false);
      var o := WriteDB(WithUser(loaded.value, user));
      if o.Fail? {
        return Failure(o.error);
      }
      return Success(user);
    }

    /**
     * The older `CreateUser(email)` of db.go: no duplicate check, and the
     * counter is incremented before the load, so a failed load uses up the id.
     */
    method LegacyCreateUser(email: string) returns (r: Result<User>)
      modifies this`userLastId, this`file
      ensures userLastId == old(userLastId) + 1
      ensures r.Success? <==> old(file).Stored? && writable
      ensures r.Success? ==> r.value == User(userLastId, email, "", false)
      ensures r.Success? ==> file == Stored(WithUser(old(file).doc, r.value))
      ensures r.Failure? ==> file == old(file)
    {
      userLastId := userLastId + 1;
      var user := User(userLastId, email, "", false);
      var loaded := Load(file);
      if loaded.Failure? {
        return Failure(loaded.error);
      }
      var o := WriteDB(WithUser(loaded.value, user));
      if o.Fail? {
        return Failure(o.error);
      }
      return Success(user);
    }

    /** `GetUsers`: every stored user once, in unspecified order. */
    method GetUsers() returns (r: Result<seq<User>>, ghost keys: seq<int>)
      ensures !file.Stored? ==> r == Failure(Load(file).error)
      ensures file.Stored? ==> r.Success? && Enumerates(r.value, file.doc.users, keys)
    {
      keys := [];
      var loaded := Load(file);
      if loaded.Failure? {
        return Failure(loaded.error), keys;
      }
      var users;
      users, keys := ValuesOf(loaded.value.users);
      return Success(users), keys;
    }

    /**
     * `UpdateUser`: entries whose `Id` matches are replaced and the document
     * is written even when none matched; there is no not-found error and no
     * email check.
     */
    method UpdateUser(user: User) returns (r: Result<User>)
      modifies this`file
      ensures !old(file).Stored? ==> r == Failure(Load(old(file)).error)
      ensures old(file).Stored? ==> r == if writable then Success(user) else Failure(ErrWrite)
      ensures r.Success? ==> file == Stored(old(file).doc.(users := Replaced(old(file).doc.users, user)))
      ensures r.Failure? ==> file == old(file)
    {
      var loaded := Load(file);
      if loaded.Failure? {
        return Failure(loaded.error);
      }
      var users := ReplaceMatching(loaded.value.users, user);
      var o := WriteDB(loaded.value.(users := users));
      if o.Fail? {
        return Failure(o.error);
      }
      return Success(user);
    }

    /** `SaveRefreshToken`: the owner's entry becomes this token, replacing any earlier one. */
    method SaveRefreshToken(userId: int, token: string, expiresAt: int) returns (r: Result<RefreshToken>)
      modifies this`file
      ensures !old(file).Stored? ==> r == Failure(Load(old(file)).error)
      ensures old(file).Stored? ==>
                r == if writable then Success(RefreshToken(userId, token, expiresAt)) else Failure(ErrWrite)
      ensures r.Success? ==> file == Stored(WithToken(old(file).doc, r.value))
      ensures r.Failure? ==> file == old(file)
    {
      var loaded := Load(file);
      if loaded.Failure? {
        return Failure(loaded.error);
      }
      var tokenObj := RefreshToken(userId, token, expiresAt);
      var o := WriteDB(WithToken(loaded.value, tokenObj));
      if o.Fail? {
        return Failure(o.error);
      }
      return Success(tokenObj);
    }

    /** `GetRefreshToken`: a stored record with that value; expiry is not checked here. */
    method GetRefreshToken(token: string) returns (r: Result<RefreshToken>)
      ensures !file.Stored? ==> r == Failure(Load(file).error)
      ensures file.Stored? ==> (r.Success? <==> TokenHeld(file.doc.refreshTokens, token))
      ensures file.Stored? && r.Failure? ==> r.error == ErrRefreshTokenNotFound
      ensures r.Success? ==> r.value in file.doc.refreshTokens.Values && r.value.token == token
    {
      var loaded := Load(file);
      if loaded.Failure? {
        return Failure(loaded.error);
      }
      var found := FindRefreshTokenByToken(loaded.value.refreshTokens, token);
      if found.None? {
        return Failure(ErrRefreshTokenNotFound);
      }
      return Success(found.value);
    }

    /**
     * `DeleteRefreshToken`: the entry of the found record's owner is deleted;
     * an absent token is an error and nothing is written.
     */
    method DeleteRefreshToken(token: string) returns (o: Outcome, ghost removed: Option<RefreshToken>)
      modifies this`file
      ensures removed.Some? <==> old(file).Stored? && TokenHeld(old(file).doc.refreshTokens, token)
      ensures removed.Some? ==>
                removed.value in old(file).doc.refreshTokens.Values && removed.value.token == token
      ensures !old(file).Stored? ==> o == Fail(Load(old(file)).error)
      ensures old(file).Stored? && removed.None? ==> o == Fail(ErrRefreshTokenNotFound)
      ensures removed.Some? ==> o == if writable then Pass else Fail(ErrWrite)
      ensures o.Pass? ==> file == Stored(WithoutToken(old(file).doc, removed.value.userId))
      ensures o.Fail? ==> file == old(file)
    {
      removed := None;
      var loaded := Load(file);
      if loaded.Failure? {
        return Fail(loaded.error), removed;
      }
      var found := FindRefreshTokenByToken(loaded.value.refreshTokens, token);
      if found.None? {
        return Fail(ErrRefreshTokenNotFound), removed;
      }
      removed := found;
      o := WriteDB(WithoutToken(loaded.value, found.value.userId));
    }
  }

  // ----- Properties of the document operations -----

  /** A value of a map is stored under some key. */
  lemma KeyOf<T>(m: map<int, T>, v: T) returns (k: int)
    requires v in m.Values
    ensures k in m && m[k] == v
  {
    if forall j | j in m :: m[j] != v {
      assert false;
    }
    k :| k in m && m[k] == v;
  }

  /** Every stored record appears in a listing of the collection. */
  lemma EnumeratesIndex<T>(values: seq<T>, m: map<int, T>, keys: seq<int>, k: int) returns (j: int)
    requires Enumerates(values, m, keys) && k in m
    ensures 0 <= j < |values| && values[j] == m[k]
  {
    if forall i | 0 <= i < |keys| :: keys[i] != k {
      assert false;
    }
    j :| 0 <= j < |keys| && keys[j] == k;
  }

  /** Distinct keys listed in a sequence: the set they form has that many members. */
  lemma {:induction false} DistinctKeysCount(keys: seq<int>)
    requires forall i, j | 0 <= i < j < |keys| :: keys[i] != keys[j]
    ensures |set k | k in keys| == |keys|
  {
    if |keys| > 0 {
      var last := keys[|keys| - 1];
      var init := keys[..|keys| - 1];
      DistinctKeysCount(init);
      assert (set k | k in keys) == (set k | k in init) + {last};
      assert last !in init;
    }
  }

  /** A listing of a collection holds exactly its values, one per key. */
  lemma EnumeratesAll<T>(values: seq<T>, m: map<int, T>, keys: seq<int>)
    requires Enumerates(values, m, keys)
    ensures |values| == |m|
    ensures forall v :: v in values <==> v in m.Values
  {
    DistinctKeysCount(keys);
    assert forall x :: x in (set k | k in keys) <==> x in m.Keys;
    assert (set k | k in keys) == m.Keys;
    forall v | v in m.Values ensures v in values {
      var k :| k in m && m[k] == v;
      var i :| 0 <= i < |keys| && keys[i] == k;
      assert values[i] == v;
    }
  }

  /**
   * Storing a record whose id is beyond every stored key adds it and keeps
   * every earlier record; the counter stays ahead.
   */
  lemma FreshIdKeepsChirps(d: Document, c: Chirp, last: int)
    requires KeysAtMost(d.chirps, last) && c.id == last + 1
    ensures c.id !in d.chirps
    ensures WithChirp(d, c).chirps.Keys == d.chirps.Keys + {c.id}
    ensures |WithChirp(d, c).chirps| == |d.chirps| + 1
    ensures forall k | k in d.chirps :: WithChirp(d, c).chirps[k] == d.chirps[k]
    ensures KeysAtMost(WithChirp(d, c).chirps, c.id)
  {
    assert c.id !in d.chirps;
  }

  /** Storing a chirp under an id already in use replaces the earlier chirp: it is lost. */
  lemma ReusedIdOverwrites(d: Document, c: Chirp)
    requires KeyedById(d) && c.id in d.chirps && d.chirps[c.id] != c
    ensures |WithChirp(d, c).chirps| == |d.chirps|
    ensures d.chirps[c.id] !in WithChirp(d, c).chirps.Values
  {
    var old_ := d.chirps[c.id];
    var m := WithChirp(d, c).chirps;
    assert m.Keys == d.chirps.Keys;
    forall k | k in m ensures m[k] != old_ {
      if k != c.id {
        assert m[k] == d.chirps[k] && d.chirps[k].id == k && old_.id == c.id;
      }
    }
  }

  /**
   * `CreateUser`'s duplicate check keeps every email held by one user only,
   * also when the new id is one already stored (a counter reset by a restart).
   */
  lemma NewUserKeepsEmailsDistinct(d: Document, u: User)
    requires DistinctEmails(d.users) && !EmailTaken(d.users, u.email)
    ensures DistinctEmails(WithUser(d, u).users)
    ensures KeyedById(d) ==> KeyedById(WithUser(d, u))
  {
  }

  /**
   * When every user is stored under its id, the replacement loop of
   * `UpdateUser` changes that one entry, and nothing for an unknown id.
   */
  lemma {:induction false} ReplacedIsPointUpdate(users: map<int, User>, user: User)
    requires forall k | k in users :: users[k].id == k
    ensures user.id in users ==> Replaced(users, user) == users[user.id := user]
    ensures user.id !in users ==> Replaced(users, user) == users
  {
    var r := Replaced(users, user);
    if user.id in users {
      var p := users[user.id := user];
      assert r.Keys == p.Keys;
      forall k | k in r ensures r[k] == p[k] {
      }
    } else {
      assert r.Keys == users.Keys;
      forall k | k in r ensures r[k] == users[k] {
      }
    }
  }

  /** `UpdateUser` does not check emails: it can give two users the same one. */
  lemma UpdateCanDuplicateEmail()
    ensures var users := map[1 := User(1, "a@x", "", false), 2 := User(2, "b@x", "", false)];
            && DistinctEmails(users)
            && !DistinctEmails(Replaced(users, User(2, "a@x", "", false)))
  {
    var users := map[1 := User(1, "a@x", "", false), 2 := User(2, "b@x", "", false)];
    var r := Replaced(users, User(2, "a@x", "", false));
    assert r[1].email == r[2].email;
  }

  /**
   * After saving `t`, the token value is held, and it is held by `t` alone
   * when no other owner's record carries the same value.
   */
  lemma SavedTokenFound(d: Document, t: RefreshToken)
    requires forall k | k in d.refreshTokens && k != t.userId :: d.refreshTokens[k].token != t.token
    ensures TokenHeld(WithToken(d, t).refreshTokens, t.token)
    ensures forall k | k in WithToken(d, t).refreshTokens && WithToken(d, t).refreshTokens[k].token == t.token ::
              WithToken(d, t).refreshTokens[k] == t
  {
    assert WithToken(d, t).refreshTokens[t.userId] == t;
  }

  /** A user holds one refresh token: a second save replaces the first. */
  lemma SecondSaveSupersedes(d: Document, t1: RefreshToken, t2: RefreshToken)
    requires t1.userId == t2.userId
    ensures WithToken(WithToken(d, t1), t2) == WithToken(d, t2)
  {
    assert WithToken(WithToken(d, t1), t2).refreshTokens == WithToken(d, t2).refreshTokens;
  }

  /**
   * After a second save for the same owner with a different value, the first
   * value is held by nobody, when no other owner held it.
   */
  lemma SecondSaveForgetsFirst(d: Document, t1: RefreshToken, t2: RefreshToken)
    requires t1.userId == t2.userId && t1.token != t2.token
    requires forall k | k in d.refreshTokens && k != t1.userId :: d.refreshTokens[k].token != t1.token
    ensures !TokenHeld(WithToken(WithToken(d, t1), t2).refreshTokens, t1.token)
  {
  }

  /**
   * Deleting the entry of the record found for a token leaves that token
   * held by nobody, when records are keyed by owner and tokens are distinct.
   */
  lemma DeletedTokenGone(d: Document, r: RefreshToken)
    requires KeyedById(d) && DistinctTokens(d.refreshTokens)
    requires r in d.refreshTokens.Values
    ensures !TokenHeld(WithoutToken(d, r.userId).refreshTokens, r.token)
    ensures forall k | k in d.refreshTokens && k != r.userId ::
              WithoutToken(d, r.userId).refreshTokens[k] == d.refreshTokens[k]
  {
    var owner := KeyOf(d.refreshTokens, r);
    assert owner == r.userId;
  }

  /** Two successful `CreateChirp` calls in a row hand out strictly increasing ids. */
  method SuccessiveChirpIds(db: DB, body1: string, body2: string, userId: int)
    returns (first: Result<Chirp>, second: Result<Chirp>)
    modifies db
    ensures first.Success? && second.Success? ==> first.value.id + 1 == second.value.id
    ensures first.Success? <==> old(db.file).Stored? && db.writable
  {
    first := db.CreateChirp(userId, body1);
    second := db.CreateChirp(userId, body2);
  }

  /**
   * `NewDB` on a file that already holds chirp 1 starts the counter at 0
   * again: the next chirp gets id 1 and overwrites the stored one.
   */
  method RestartReusesChirpId() returns (stored: Chirp, created: Result<Chirp>, after: FileState)
    ensures stored == Chirp(1, "first", 1)
    ensures created == Success(Chirp(1, "second", 2))
    ensures after.Stored? && after.doc.chirps == map[1 := created.value]
    ensures stored !in after.doc.chirps.Values
  {
    stored := Chirp(1, "first", 1);
    var started := DB.NewDB(Stored(EmptyDocument.(chirps := map[1 := stored])), true);
    var db := started.value;
    created := db.CreateChirp(2, "second");
    after := db.file;
  }

  /** With the counter seeded from the stored ids, the next chirp gets id 2 and both are kept. */
  method RestartSeededKeepsChirps() returns (stored: Chirp, created: Result<Chirp>, after: FileState)
    ensures stored == Chirp(1, "first", 1)
    ensures created == Success(Chirp(2, "second", 2))
    ensures after.Stored? && after.doc.chirps == map[1 := stored, 2 := created.value]
  {
    stored := Chirp(1, "first", 1);
    var started := DB.NewDBSeeded(Stored(EmptyDocument.(chirps := map[1 := stored])), true);
    var db := started.value;
    assert db.file.doc.chirps == map[1 := stored];
    assert db.CountersAhead();
    assert 1 in db.file.doc.chirps;
    assert db.chirpLastId == 1;
    created := db.CreateChirp(2, "second");
    after := db.file;
  }
}
