/**
 * The game server's identity check (Scripts/Networking/ServerAuthHandler.cs):
 * validate the bearer token, then fetch the character record, and report one
 * verdict to the caller.
 *
 * Each coroutine is modelled by the requests it issues and the callback
 * invocations it makes, in order. The HTTP exchange is an oracle: the
 * `WebResult` a request ends with is a parameter, and `JsonUtility.FromJson`
 * is a pair of parse functions whose `None` stands for the exception it throws.
 */
module ServerAuth {
  import opened Base
  import opened Decimal
  import opened NetworkPlayers

  const ApiUrl := "http://localhost:5000/api"

  /** How a `UnityWebRequest` ends: `Result.Success` with the downloaded text, or any
      other result (connection error, non-2xx status, data processing error). */
  datatype WebResult = WebSuccess(text: string) | WebFailure(error: string)

  /** The body of a `POST /auth/validate` answer. */
  datatype ValidateTokenResponse = ValidateTokenResponse(valid: bool, userId: int, username: string)

  /** `JsonUtility.FromJson` for the two bodies; `None` is a thrown parse exception. */
  datatype Parsers = Parsers(
    validateResponse: string -> Option<ValidateTokenResponse>,
    characterData: string -> Option<CharacterData>)

  /** The HTTP requests the handler issues. */
  datatype Request =
    | PostValidate(url: string, body: JsonObject)
    | GetCharacter(url: string, authorization: string)

  /** What `ValidateToken` passes to its callback: `(tokenValid, userId)`. */
  datatype TokenCheck = TokenCheck(valid: bool, userId: int)

  /** What `GetCharacterData` and the composite pass to their callbacks: `(success, data)`,
      with `None` for C#'s `null`. */
  datatype Verdict = Verdict(success: bool, data: Option<CharacterData>)

  /** A run of the composite: requests in the order issued, callback invocations in order. */
  datatype Trace = Trace(requests: seq<Request>, callbacks: seq<Verdict>)

  const ValidateUrl := ApiUrl + "/auth/validate"

  /** The body of the validation request as the source builds it: `JsonUtility.ToJson`
      writes only the public fields of a serialisable class or struct, and an anonymous
      object has none, so the token is not in the body, which is `{}`. */
  function ValidateBodyAsWritten(token: string): (body: JsonObject)
    ensures "token" !in body
  {
    map[]
  }

  /** The body as intended, `{"token": ...}`: the token under the member name the
      identity service reads. */
  function ValidateBody(token: string): (body: JsonObject)
    ensures "token" in body && body["token"] == token
  {
    map["token" := token]
  }

  /** The URL of step 2, `{API_URL}/characters/{characterId}`. */
  function CharacterUrl(characterId: int): string {
    ApiUrl + "/characters/" + ToDecimal(characterId)
  }

  /** The callback invocations of `ValidateToken`: the `(true, userId)` call inside the
      `try` is followed by `yield break`; every other path reaches the final `(false, 0)`. */
  function ValidateTokenCallbacks(response: WebResult, parsers: Parsers): (calls: seq<TokenCheck>)
    ensures |calls| == 1
    ensures calls[0].valid <==>
      && response.WebSuccess?
      && parsers.validateResponse(response.text).Some?
      && parsers.validateResponse(response.text).value.valid
    ensures calls[0].valid ==> calls[0].userId == parsers.validateResponse(response.text).value.userId
    ensures !calls[0].valid ==> calls[0].userId == 0
  {
    var inTry: seq<TokenCheck> :=
      match response
      case WebSuccess(text) =>
        (match parsers.validateResponse(text)
         case Some(body) => if body.valid then [TokenCheck(true, body.userId)] else []
         case None => [])
      case WebFailure(_) => [];
    var leftEarly := inTry != [];
    inTry + (if leftEarly then [] else [TokenCheck(false, 0)])
  }

  /** The callback invocations of `GetCharacterData`: `(true, data)` for a successful
      request whose body parses, followed by `yield break`; otherwise `(false, null)`. */
  function GetCharacterDataCallbacks(response: WebResult, parsers: Parsers): (calls: seq<Verdict>)
    ensures |calls| == 1
    ensures calls[0].success <==> calls[0].data.Some?
    ensures calls[0].success <==>
      response.WebSuccess? && parsers.characterData(response.text).Some?
    ensures calls[0].success ==> calls[0].data == parsers.characterData(response.text)
  {
    var inTry: seq<Verdict> :=
      match response
      case WebSuccess(text) =>
        (match parsers.characterData(text)
         case Some(data) => [Verdict(true, Some(data))]
         case None => [])
      case WebFailure(_) => [];
    var leftEarly := inTry != [];
    inTry + (if leftEarly then [] else [Verdict(false, None)])
  }

  /** What the token callback of `ValidateTokenAndCharacter` does for one invocation: on
      failure it reports `(false, null)` and starts nothing; on success it starts
      `GetCharacterData` with the token and the character id (the user id is not used)
      and passes its verdict through. */
  function OnTokenChecked(check: TokenCheck, token: string, characterId: int,
                          characterResponse: WebResult, parsers: Parsers): Trace
  {
    if !check.valid then
      Trace([], [Verdict(false, None)])
    else
      Trace([GetCharacter(CharacterUrl(characterId), "Bearer " + token)],
            GetCharacterDataCallbacks(characterResponse, parsers))
  }

  /** Runs the token callback once per invocation of it, in order. */
  function RunTokenCallbacks(checks: seq<TokenCheck>, token: string, characterId: int,
                             characterResponse: WebResult, parsers: Parsers): Trace
  {
    if checks == [] then Trace([], [])
    else
      var head := OnTokenChecked(checks[0], token, characterId, characterResponse, parsers);
      var rest := RunTokenCallbacks(checks[1..], token, characterId, characterResponse, parsers);
      Trace(head.requests + rest.requests, head.callbacks + rest.callbacks)
  }

  /** `ValidateTokenAndCharacter`: the token is checked first and the character is fetched
      only after a valid token; the caller's callback runs exactly once, with success only
      when both steps succeed, and then with the fetched record unchanged. */
  function ValidateTokenAndCharacter(token: string, characterId: int,
                                     validateResponse: WebResult, characterResponse: WebResult,
                                     parsers: Parsers): (t: Trace)
    ensures |t.callbacks| == 1
    ensures t.requests != [] && t.requests[0] == PostValidate(ValidateUrl, ValidateBody(token))
    ensures var check := ValidateTokenCallbacks(validateResponse, parsers)[0];
            var fetched := GetCharacterDataCallbacks(characterResponse, parsers)[0];
            && (!check.valid ==> t.requests == [PostValidate(ValidateUrl, ValidateBody(token))]
                                 && t.callbacks == [Verdict(false, None)])
            && (check.valid ==> t.requests == [PostValidate(ValidateUrl, ValidateBody(token)),
                                               GetCharacter(CharacterUrl(characterId), "Bearer " + token)]
                                && t.callbacks == [fetched])
            && (t.callbacks[0].success <==> check.valid && fetched.success)
    ensures t.callbacks[0].success <==> t.callbacks[0].data.Some?
  {
    var checks := ValidateTokenCallbacks(validateResponse, parsers);
    var after := RunTokenCallbacks(checks, token, characterId, characterResponse, parsers);
    assert checks[1..] == [];
    var head := OnTokenChecked(checks[0], token, characterId, characterResponse, parsers);
    assert RunTokenCallbacks(checks[1..], token, characterId, characterResponse, parsers) == Trace([], []);
    assert after.requests == head.requests + [] && after.callbacks == head.callbacks + [];
    Trace([PostValidate(ValidateUrl, ValidateBody(token))] + after.requests, after.callbacks)
  }

  /** The character request names the character by its decimal id, which the identity
      service's route reads back as that same id. */
  lemma CharacterUrlNamesCharacter(characterId: int)
    requires IsInt32(characterId)
    ensures var url := CharacterUrl(characterId);
            var prefix := ApiUrl + "/characters/";
            && |prefix| <= |url| && url[..|prefix|] == prefix
            && TryParseInt32(url[|prefix|..]) == Some(characterId)
  {
    var prefix := ApiUrl + "/characters/";
    assert CharacterUrl(characterId)[|prefix|..] == ToDecimal(characterId);
    ParseOfToDecimal(characterId);
  }
}
