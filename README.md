# Chirpy core in Dafny

A model of the core of Chirpy, a small microblogging server written in Go,
with proofs about it. The model covers:

- **Chirp validation.** The 140-byte limit, then whole-word, case-insensitive masking of three banned words.
- **The document store.** A `DB` object owns two id counters and a JSON file holding three keyed collections: chirps, users and refresh tokens.
- **The session handlers.** Login, refresh and revoke, as transitions of the refresh-token collection.
- **The chirp handlers.** Listing with author filter and sort order, lookup by id, owner-only delete, and create.
- **The payment webhook.** An API-key check, then a closed event table.
- **The access-token helpers.** Both the current and the older version.

## Modules

- `Base` (`base.dfy`): `Option`, `Result`, `Outcome`, the `byte` type, the error values, and `IndexFunc` (Go's `slices.IndexFunc`).
- `Strings` (`strings.dfy`): `ToLower`, `CutPrefix`, `Split` and `Join` for a one-byte separator. Each `char` of a Dafny string stands for one byte of a Go string.
- `Decimal` (`decimal.dfy`): `fmt.Sprint` and `strconv.Atoi` for a 64-bit `int`. `Atoi` reads the digits left to right into an unsigned 64-bit value, so digits worth more than 2^64 − 1 are a range error even when a non-digit follows them.
- `Entities` (`entities.dfy`): the `Chirp`, `User` and `RefreshToken` records, and `ValidateChirp`.
- `Database` (`database.dfy`): class `DB` and the loops over loaded collections.
  - The backing file is the field `file`, a `FileState` that is absent, unreadable, garbled or holds a `Document`. `writable` says whether writing it succeeds.
  - `loadDB` becomes `Load(file)`; `writeDB` replaces `file`.
  - Go's unordered `range` over a map is a loop that picks any remaining key with `:|`.
- `Jwt` (`jwt.go` under `api/`) and `LegacyJwt` (the older top-level `jwt.go`): claim construction, the expiry rule, the subject round trip, and the hex encoding of refresh tokens.
- `Api` (`api.dfy`): `ApiConfig` and the `Response` a handler writes, a status and a JSON body.
- `Session`, `ChirpRoutes`, `Webhooks`: the handlers of `api/routesAuth.go`, `api/routesChirps.go` and `api/webhooks.go`.

Time, randomness, signing and bcrypt are inputs:

- **Clock.** `now` is an integer of seconds. All clock readings within one request are taken to be the same `now`, except in `Jwt.AccessClaims`, which keeps the two readings of `createJwt` apart.
- **Random bytes.** They are `Option<seq<byte>>`; `None` means `rand.Read` failed.
- **Signing.** It is a `Jwt.Crypto` value with `sign` and `parse`. The one fact assumed of it, that a signed token parses back to its claims, is the premise `Jwt.SignatureSound` of the lemmas that need it.
- **bcrypt.** `ApiConfig.passwordMatches(hash, plain)` stands for `CompareHashAndPassword`.

Where the code departs from the behaviour it evidently aims at, the model follows the code:

- **Id counters.** `NewDB` starts both counters at 0; they are not seeded from the largest stored id. See Findings.
- **Refresh expiry.** A refresh token is still accepted at the second it expires, because `ExpiresAt.Before(now)` is strict. The intended rule is that it is active only while now < expiresAt.
- **Email comparison.** `CreateUser` and `findUserByEmail` compare the email exactly. Lowercasing is left to the caller.
- **The stored document.** `DBStructure` in `internal/database/db.go` declares only chirps and users, but `tokens.go` uses a third collection, `RefreshTokens`. The model's `Document` has all three collections, and `ensureDB` writes it empty.
- **`NewDB` arguments.** `NewDB` takes no debug flag in `internal/database/db.go`, though the callers pass one. Nothing discards an existing document at startup.

## Model

| member | source | states |
|---|---|---|
| `Base.IndexFunc` | api/routesChirps.go:22-28 | -1 exactly when no element satisfies the predicate; otherwise the first index that does |
| `Strings.CutPrefix` | api/routesAuth.go:16-19 | found exactly when the prefix starts the string; then prefix + rest is the string, otherwise the string comes back unchanged |
| `Strings.ToLower` | internal/entities/chirp.go:22 | same length, no upper-case ASCII letter left, and every other character unchanged |
| `Strings.Split` | internal/entities/chirp.go:20 | at least one piece, and no piece contains the separator |
| `Strings.Join` | internal/entities/chirp.go:26 | no parts give "", one part is itself, and more parts start with the first part and the separator |
| `Strings.JoinSplit` | internal/entities/chirp.go:20-26 | joining the pieces of a split gives back the original text, so separators are preserved |
| `Strings.SplitJoin` | internal/entities/chirp.go:20-26 | splitting the join of separator-free pieces gives back the pieces |
| `Strings.JoinNoLonger` | internal/entities/chirp.go:26 | joining piecewise shorter pieces is no longer |
| `Entities.ValidateChirp` | internal/entities/chirp.go:16-27 | over 140 bytes is the too-long error and exactly 140 is accepted; otherwise the masked words are joined back, equal to `Cleaned(text)`, the text split on " " with each word masked |
| `Entities.CensorNoSpace` | internal/entities/chirp.go:21-25 | masking never introduces a separator |
| `Entities.CleanedSegments` | internal/entities/chirp.go:9-26 | same number of segments as the input; a segment is "****" exactly when its lowercase form is kerfuffle, sharbert or fornax, and is copied unchanged, case included, otherwise |
| `Entities.CensorNoLonger` | internal/entities/chirp.go:9-23 | a masked word is no longer than the original |
| `Entities.CleanedNoLonger` | internal/entities/chirp.go:16-27 | output length is at most input length |
| `Entities.CensorIdempotent` | internal/entities/chirp.go:21-25 | masking a masked word changes nothing |
| `Entities.CleanedIdempotent` | internal/entities/chirp.go:16-27 | validating a cleaned chirp succeeds and returns it unchanged |
| `Entities.CensorExamples` | internal/entities/chirp.go:22-24 | "Kerfuffle" and "SHARBERT" are masked; "Fornax!" is kept because matching is per whole segment |
| `Decimal.FormatNat` | api/jwt.go:26 | decimal text of a natural is non-empty and all digits |
| `Decimal.FormatInt` | api/jwt.go:26 | `fmt.Sprint` of an int is non-empty |
| `Decimal.Unsigned` | api/jwt.go:49 | the text after one optional leading '+' or '-' |
| `Decimal.LeadingDigits` | api/jwt.go:49 | the length of the longest leading run of digits: all digits before it and a non-digit at it |
| `Decimal.Atoi` | api/jwt.go:49 | a parsed value fits in 64 bits; a failure is a syntax or range error |
| `Decimal.DigitsValuePrefix` | api/routesChirps.go:34-37 | a digit run is worth at least as much as any of its prefixes, so once the digits read exceed 2^64 − 1 they stay over it |
| `Decimal.LeadingDigitsAt` | api/routesChirps.go:34-37 | a digit prefix followed by a non-digit is the leading run |
| `Decimal.DigitsValueFormatNat` | api/jwt.go:26-49 | the value of the digits `FormatNat` writes is the number |
| `Decimal.AtoiDigits` | api/jwt.go:26-49 | an unsigned digit run within 64 bits parses to its value |
| `Decimal.AtoiNegatedDigits` | api/jwt.go:26-49 | a '-' and a digit run within 64 bits parse to the negated value |
| `Decimal.AtoiFormatInt` | api/jwt.go:26-49 | `Atoi(Sprint(n)) == n` for every 64-bit n |
| `Decimal.AtoiRejectsMissingDigits` | api/routesChirps.go:34-37 | empty text, "-" and "+" are syntax errors |
| `Decimal.AtoiRejectsNonDigit` | api/routesChirps.go:34-37 | signed or not, a non-digit after digits worth at most 2^64 − 1 is a syntax error |
| `Decimal.AtoiRangeBeforeSyntax` | api/routesChirps.go:34-37 | signed or not, digits worth more than 2^64 − 1 are a range error whatever follows them |
| `Decimal.AtoiRejectsOutOfRange` | api/jwt.go:49-52 | digits of a value beyond 64 bits are a range error, never a wrapped value |
| `Decimal.AtoiExamples` | api/jwt.go:49 | "42", "+7" and "-007" parse to 42, 7 and −7 |
| `Decimal.AtoiPlusSeven` | api/jwt.go:49 | a leading '+' is accepted |
| `Decimal.AtoiMinusSeven` | api/jwt.go:49 | a leading '-' and leading zeros are accepted |
| `Decimal.AtoiSyntaxExamples` | api/routesChirps.go:34-37 | "-", "12a" and "-12a" are syntax errors |
| `Decimal.NinesValue` | api/routesChirps.go:34-37 | k nines are worth 10^k − 1 |
| `Decimal.AtoiOverflowBeforeLetter` | api/routesChirps.go:34-37 | twenty nines followed by "a" are a range error, not a syntax error |
| `Jwt.BuildExpiration` | api/jwt.go:16-18 | the instant lies exactly `seconds` after the clock reading, and is later exactly when `seconds` is positive |
| `Jwt.AccessClaims` | api/jwt.go:21-27 | issuer "chirpy", iat the first clock reading, exp one hour after the second, and a subject that parses back to a 64-bit id |
| `Jwt.CreateJwt` | api/jwt.go:20-34 | the token is the signature of exactly the access claims under the secret; a signing failure is the only error |
| `Jwt.ParseJwt` | api/jwt.go:37-44 | success exactly for a token whose signature verifies and whose exp lies strictly after now, with the signed claims; otherwise invalid or expired |
| `Jwt.GetUserIdFromJwt` | api/jwt.go:36-54 | an id is returned only when the token verifies, has not expired and its subject parses; never a partial id |
| `Jwt.AccessClaimsShape` | api/jwt.go:13-27 | issuer "chirpy", iat the first clock reading, exp 3600 s after the second reading (so at least 3600 s after iat), subject parsing back to the user id |
| `Jwt.CreatedJwtYieldsUser` | api/jwt.go:20-54 | a token issued for a user yields that user strictly before exp and an expiry error from exp on |
| `Jwt.HexEncode` | api/jwt.go:63 | two lowercase hex digits per byte |
| `Jwt.HexDigit` | api/jwt.go:63 | each nibble is written as a lowercase hex digit |
| `Jwt.HexByteRoundTrip` | api/jwt.go:63 | the two digits written for a byte read back as its high and low nibble |
| `Jwt.HexValue` | api/jwt.go:63 | a hex digit's value is below 16 and names that digit |
| `Jwt.HexRoundTrip` | api/jwt.go:63 | decoding the hex text gives back the bytes |
| `Jwt.HexEncodeInjective` | api/jwt.go:63 | distinct random buffers give distinct tokens |
| `Jwt.BuildRandomToken` | api/jwt.go:56-65 | a failed random read is an error; otherwise 64 lowercase hex characters that decode to the 32 bytes |
| `LegacyJwt.CreateJwt` | jwt.go:13-27 | the token is the signature of exactly the legacy claims under the secret; a signing failure is the only error |
| `LegacyJwt.LegacyClaims` | jwt.go:13-20 | issuer "chirpy", iat = now, exp − iat equal to the caller's lifetime, subject parsing back to the id |
| `LegacyJwt.LegacyJwtRoundTrip` | jwt.go:13-47 | an issued token yields the id before exp and an expiry error afterwards |
| `LegacyJwt.UnverifiedRejected` | jwt.go:29-37 | a token that does not verify is an error |
| `Database.Load` | internal/database/db.go:126-139 | only a stored document loads, and it comes back unchanged; a read failure is the error the read reports, undecodable bytes a decode error |
| `Database.ValuesOf` | internal/database/chirps.go:28-32 | the result lists every value of the collection once, one per key |
| `Database.FindUserByEmail` | internal/database/users.go:5-12 | a found user is stored and has exactly that email; none is found exactly when no stored email is equal, case included |
| `Database.FindRefreshTokenByToken` | internal/database/tokens.go:10-17 | a found record is stored and carries that token; none exactly when no stored record does |
| `Database.ReplaceMatching` | internal/database/users.go:60-64 | the loop result is `Replaced`: every entry whose id matches becomes the new user, all others unchanged |
| `Database.MaxKey` | internal/database/db.go:32-39 | the largest key, or 0 when no key is positive; every key is at most it |
| `Database.DB.constructor` | internal/database/db.go:32-39 | both counters 0, whatever the file holds |
| `Database.DB.NewDB` | internal/database/db.go:31-44 | counters 0; fails with the read error for an unreadable file or the write error when a missing file cannot be created; otherwise the file after `ensureDB` |
| `Database.DB.NewDBSeeded` | internal/database/db.go:31-44 | the corrected constructor: counters are the largest stored ids, so both are ahead of every stored key |
| `Database.DB.EnsureDB` | internal/database/db.go:107-123 | a readable file is left untouched, even one that does not decode; a missing file becomes the empty document; any other read error is returned and nothing is written |
| `Database.DB.WriteDB` | internal/database/db.go:142-155 | the whole document replaces the file, and a subsequent load returns exactly it; a failed write changes nothing |
| `Database.DB.CreateChirp` | internal/database/chirps.go:6-20 | counter +1 even when the load fails; on success the chirp {counter, body, userId} is stored under its id, other entries unchanged; on failure nothing is written; a counter ahead of the stored keys stays ahead and gives a fresh id |
| `Database.DB.LegacyCreateChirp` | internal/database/db.go:47-61 | the earlier version: counter +1 before the load, chirp with no owner |
| `Database.DB.GetChirps` | internal/database/chirps.go:23-33 | a load error is returned; otherwise one element per stored chirp |
| `Database.DB.CreateUser` | internal/database/users.go:15-39 | a duplicate email fails with ErrDuplicateUser before the counter moves and nothing is written; otherwise counter +1 and {id, email, password} is stored under it; a counter ahead stays ahead and gives a fresh id |
| `Database.DB.LegacyCreateUser` | internal/database/db.go:77-91 | the earlier version: counter +1 before the load (a failed load still uses up the id), no duplicate check |
| `Database.DB.GetUsers` | internal/database/users.go:42-52 | a load error is returned; otherwise one element per stored user |
| `Database.DB.UpdateUser` | internal/database/users.go:55-69 | the users become `Replaced(users, user)` and the input is returned, even for an unknown id; no not-found error |
| `Database.DB.SaveRefreshToken` | internal/database/tokens.go:19-36 | the owner's entry becomes {userId, token, expiresAt}, replacing any earlier one; other entries unchanged |
| `Database.DB.GetRefreshToken` | internal/database/tokens.go:38-49 | success exactly when some stored record has the token, and then one such record; otherwise "refresh token not found"; no expiry check and no write |
| `Database.DB.DeleteRefreshToken` | internal/database/tokens.go:51-66 | an absent token is an error with no write; otherwise the found record's owner entry is deleted |
| `Database.DistinctKeysCount` | internal/database/db.go:69-73 | distinct keys listed give a set of that many keys |
| `Database.EnumeratesAll` | internal/database/db.go:69-103 | a listing has as many elements as the collection and holds exactly its values |
| `Database.FreshIdKeepsChirps` | internal/database/chirps.go:7-15 | an id beyond every stored key is fresh: the chirp is added and every earlier chirp kept |
| `Database.ReusedIdOverwrites` | internal/database/chirps.go:15 | an id already in use replaces the stored chirp, which is lost |
| `Database.NewUserKeepsEmailsDistinct` | internal/database/users.go:21-34 | pairwise distinct emails stay distinct after a successful create, also when the new id is already stored (a counter reset by a restart) |
| `Database.ReplacedIsPointUpdate` | internal/database/users.go:60-64 | with users keyed by id, the update changes exactly that entry, and nothing for an unknown id |
| `Database.UpdateCanDuplicateEmail` | internal/database/users.go:55-69 | the update does not re-check emails: two users can end with the same one |
| `Database.SavedTokenFound` | internal/database/tokens.go:31-48 | after a save the token is found, and only the saved record carries it when no other owner held it |
| `Database.SecondSaveSupersedes` | internal/database/tokens.go:31 | one refresh token per user: a second save replaces the first |
| `Database.SecondSaveForgetsFirst` | internal/database/tokens.go:31-46 | after a second save with a new value, the first value is no longer found, when no other user held it |
| `Database.DeletedTokenGone` | internal/database/tokens.go:56-60 | after deletion the token is held by nobody, and other owners' entries are unchanged |
| `Database.SuccessiveChirpIds` | internal/database/chirps.go:7-10 | two successive successful creates give strictly increasing ids |
| `Database.RestartReusesChirpId` | internal/database/db.go:36 | after `NewDB` on a file holding chirp 1, the next chirp gets id 1 and the stored chirp is lost |
| `Database.RestartSeededKeepsChirps` | internal/database/db.go:36 | with the seeded counter the next chirp gets id 2 and both are kept |
| `Session.IsAuthenticated` | api/routesAuth.go:15-26 | succeeds exactly when the header starts with "Bearer " and the remainder yields an id; a missing prefix is "no authorization header" and any JWT error is "unauthorized" |
| `Session.IssuedTokenAuthenticates` | api/routesAuth.go:15-26 | an issued access token sent as "Bearer <token>" authenticates its user until it expires, and is unauthorized afterwards |
| `Session.HandlerLogin` | api/routesAuth.go:28-83 | 400 for an undecodable body; 404 exactly when no user has the lowercased email; 401 for a wrong password; 500 for signing, randomness or write failures; on 200 the user's refresh token becomes the hex of the random bytes, expiring now + 60 days; any other status leaves the store unchanged |
| `Session.HandlerRefresh` | api/routesAuth.go:85-115 | 401 for a missing prefix, an unreadable store or an unknown token; 401 "token expired" when expiresAt < now, so still accepted at now == expiresAt; otherwise a new access token for the owner; writes nothing |
| `Session.HandlerRevoke` | api/routesAuth.go:117-128 | as written: with the prefix it deletes the matching token or answers 401; without it, it answers 401 and then still deletes a token equal to the whole header |
| `Session.HandlerRevokeChecked` | api/routesAuth.go:117-128 | corrected: without the prefix, 401 and nothing deleted |
| `Session.RevokeWithoutBearerDeletes` | api/routesAuth.go:118-123 | a bare "abc" header gets 401 yet the session "abc" is deleted |
| `Session.RevokeCheckedWithoutBearerKeeps` | api/routesAuth.go:118-121 | the corrected revoke keeps the session for the same request |
| `ChirpRoutes.FindChirpById` | api/routesChirps.go:17-29 | a fetch error is returned; otherwise a chirp with the id from the fetched list, or not-found exactly when none has it |
| `ChirpRoutes.ParseSort` | api/routesChirps.go:49-58 | "" and "asc" mean ascending, "desc" descending, anything else is the invalid-sort error |
| `ChirpRoutes.ParseAuthorId` | api/routesChirps.go:32-41 | empty means no filter; otherwise the value `Atoi` gives, or its error |
| `ChirpRoutes.SortedStrictly` | api/routesChirps.go:49-59 | with distinct ids the sorted listing is strictly increasing, or strictly decreasing |
| `ChirpRoutes.SortChirps` | api/routesChirps.go:59 | in place: the result is sorted in the requested direction and a permutation of the input |
| `ChirpRoutes.InsertLast` | api/routesChirps.go:59 | one insertion step extends the sorted prefix by one and keeps the multiset |
| `ChirpRoutes.HandlerListChirps` | api/routesChirps.go:31-62 | 400 for a non-integer author before any fetch; 500 for a fetch error; 400 for another sort value; on 200 a permutation of the fetched chirps in id order |
| `ChirpRoutes.HandlerGetChirp` | api/routesChirps.go:64-80 | 400 for a non-integer id; 404 exactly when the lookup is not-found, 500 for another fetch error; a found chirp is answered with 200 and that chirp, a fetched chirp with the id |
| `ChirpRoutes.HandlerDeleteChirp` | api/routesChirps.go:110-139 | `DeleteChirp` is reached exactly for an authenticated owner of an existing chirp; after authentication and a valid id, a missing chirp gets 404, another fetch error 500, a non-owner 403, and nothing is deleted |
| `ChirpRoutes.HandlerCreateChirp` | api/routesChirps.go:82-108 | 201 exactly when authenticated, decodable, at most 140 bytes and the store accepts it; the chirp's owner is the authenticated id and its body the cleaned text; unauthenticated or invalid bodies change neither counter nor store; a load or write failure is a 500 that still uses up an id |
| `Webhooks.ApiKeyAccepted` | api/webhooks.go:62-70 | accepted exactly when the header is "ApiKey " followed by the configured key |
| `Webhooks.CallbackFor` | api/webhooks.go:72-87 | only "user.upgraded" and "user.downgraded" have a callback |
| `Webhooks.Upgraded` | api/webhooks.go:39-40 | the flag is set and every other field is unchanged |
| `Webhooks.UserUpgradedCallback` | api/webhooks.go:17-47 | 400 for undecodable data; 404, with no change, exactly when no user has the id; otherwise that user is written back with the flag set, 204 |
| `Webhooks.UserDowngradedCallback` | api/webhooks.go:49-59 | 400 for undecodable data; otherwise nothing is written, not even a body |
| `Webhooks.HandlerWebhookPolka` | api/webhooks.go:61-89 | 401 for a wrong or missing key, 400 for an undecodable body, 204 and no change for an unknown event; "user.upgraded" answers 400, 500, 404 or 204 exactly as `userUpgradedCallback` does, and the store changes only by that upgrade of the user with the event's id |
| `Webhooks.UpgradeTouchesOnlyThatUser` | api/webhooks.go:39-41 | with users keyed by id, an upgrade changes that entry only, and only its flag |
| `Webhooks.UpgradeIdempotent` | api/webhooks.go:32-41 | repeating the upgrade writes back the same users |

## Left out

- File I/O and JSON. Reading, decoding, encoding and writing the file become the `FileState` field; a file whose JSON lacks a collection gets it as empty, where Go would panic on the nil map when creating or updating (reading an absent collection gives an empty listing in both).
- Changing I/O outcomes. What reading the file yields changes only by the model's own writes, and `writable` is fixed for a `DB`'s lifetime. Go reloads the file on every call, so a later read or write can fail after an earlier one succeeded: a failed `SaveRefreshToken` after a successful user lookup in login (api/routesAuth.go:68-71), or a failed `UpdateUser` reload in the upgrade callback (api/webhooks.go:41-44). Contracts that promise 200 or 204 when the file is stored and writable hold for the model only under that assumption.
- Database.SuccessiveChirpIds: says nothing linking the second create's outcome to the first's, because in Go the second load or write may fail on its own.
- Partial writes. A write either replaces the file or changes nothing.
- Locking. The mutexes and the race between concurrent load, change and write are concurrency, and the model is sequential.
- Signing. HMAC-SHA256 signing (section 3.2 of RFC 7518) and the JWT encoding are the abstract `Jwt.Crypto`. The library's other checks of a parsed token (`nbf`, an unexpected signing method) are part of `parse`.
- bcrypt. It is the abstract `passwordMatches`.
- Unicode lowercasing. `strings.ToLower` is modelled for ASCII only.
- Time below one second, and `time.Duration` overflow. Times are integer seconds.
- Integer overflow of the id counters. They are unbounded integers; Go's `int` would wrap after 2^63 − 1 ids.
- HTTP plumbing. Response encoding, headers and routing are left out, and so is the 500 that `respondWithJSON` writes when encoding fails, which cannot happen for these payloads.
- Error texts. Library error texts (`err.Error()`) are the `Error` value, not the text.
- The second response write. After `HandlerRevoke`'s missing `return`, Go ignores the second status; the model lists both writes and does not model how the bodies are concatenated.
- JSON decoding of the webhook `data` field. The two callbacks decode it into different structs; both are modelled as one `WebhookData`, or `None` when it does not decode.
- The API's `GetChirps(authorId)` and `DeleteChirp(id)`. Their bodies are not part of this model; they are parameters of the chirp handlers.
- routesUsers.go and main.go are not part of this model. main.go holds older copies of the `api/` handlers and the file-server hit counter; routesUsers.go is user creation and update over bcrypt.
- The debug flag of `NewDB`. The callers pass one, but `internal/database/db.go` has none.

## Findings

| source | as written | input that shows it | evidently intended | confidence | as-written member | corrected member |
|---|---|---|---|---|---|---|
| internal/database/db.go:36-38 | `NewDB` starts `chirpLastId` and `userLastId` at 0 whatever the file already holds | restart on a file holding chirp 1, then create a chirp: it gets id 1 and replaces the stored chirp | seed each counter with the largest stored id, so new ids are fresh | not executed | `Database.RestartReusesChirpId` | `Database.DB.NewDBSeeded` |
| api/routesAuth.go:119-121 | no `return` after the 401 for a missing "Bearer " prefix | header "abc" while a user holds refresh token "abc": 401 is sent, yet the token is deleted | return after the 401, deleting nothing | not executed | `Session.RevokeWithoutBearerDeletes` | `Session.HandlerRevokeChecked` |
