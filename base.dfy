/** Outcomes, error kinds and bytes shared by every module of the model. */
module Base {

  datatype Option<+T> = None | Some(value: T)

  /** A Go `(T, error)` pair: exactly one of the two is meaningful. */
  datatype Result<+T> = Success(value: T) | Failure(error: Error)

  /** A Go function that returns only an `error`. */
  datatype Outcome = Pass | Fail(error: Error)

  newtype byte = b: int | 0 <= b < 256

  /** The errors the core produces or passes on. */
  datatype Error =
    | ErrNotExist              // reading the backing file: it does not exist
    | ErrRead                  // reading the backing file: any other failure
    | ErrDecode                // the file's contents are not a document
    | ErrWrite                 // writing the backing file failed
    | ErrDuplicateUser         // CreateUser with an email already stored
    | ErrRefreshTokenNotFound  // no stored refresh token has that value
    | ErrChirpTooLong          // chirp body over 140 bytes
    | ErrChirpNotFound         // no chirp with that id
    | ErrSyntax                // strconv.Atoi: not an optionally signed decimal
    | ErrRange                 // strconv.Atoi: outside the 64-bit int range
    | ErrTokenInvalid          // JWT malformed or its signature does not verify
    | ErrTokenExpired          // JWT past its `exp` claim
    | ErrSign                  // signing the JWT failed
    | ErrRandom                // reading random bytes failed
    | ErrInvalidSort           // sort query other than "", "asc", "desc"
    | ErrNoAuthHeader          // Authorization header without the expected prefix
    | ErrUnauthorized          // any JWT failure, as isAuthenticated reports it

  /** `slices.IndexFunc`: the first index whose element satisfies `p`, or -1. */
  function IndexFunc<T>(s: seq<T>, p: T -> bool): (i: int)
    ensures -1 <= i < |s|
    ensures i == -1 <==> forall j | 0 <= j < |s| :: !p(s[j])
    ensures 0 <= i ==> p(s[i]) && forall j | 0 <= j < i :: !p(s[j])
  {
    if |s| == 0 then -1
    else if p(s[0]) then 0
    else
      var rest := IndexFunc(s[1..], p);
      if rest == -1 then -1 else rest + 1
  }
}
