/**
 * What the HTTP handlers share (api/main.go): their configuration and the
 * response they write. A response is its status code and a JSON body.
 */
module Api {
  import opened Base
  import opened Entities
  import Jwt

  /**
   * `apiConfig`: the JWT secret, the webhook key, and the two external
   * services the handlers call: token signing and bcrypt's
   * `CompareHashAndPassword` (`passwordMatches(hash, plain)`).
   */
  datatype ApiConfig = ApiConfig(
    jwtSecret: string,
    polkaApiKey: string,
    crypto: Jwt.Crypto,
    passwordMatches: (string, string) -> bool)

  /** The JSON a handler writes. */
  datatype Body =
    | ErrorText(message: string)      // respondWithError with a fixed message
    | Failed(error: Error)            // respondWithError with err.Error()
    | LoginPayload(id: int, email: string, isChirpyRed: bool, token: string, refreshToken: string)
    | AccessToken(token: string)
    | ChirpPayload(chirp: Chirp)
    | ChirpList(chirps: seq<Chirp>)
    | EmptyObject                     // respondWithJSON(w, code, struct{}{})
    | NoBody                          // the handler returned without writing

  datatype Response = Response(status: int, body: Body)

  const DecodeError: Response := Response(400, ErrorText("error decoding request body"))
}
