# Verified model of the RPG's admission, movement and identity core

This project models in Dafny the sequential core of a small online RPG made of three parts:

- a Unity client;
- a Mirror game server;
- an ASP.NET identity service.

The model covers:

- **Admission** (`Admission`). The game server admits a connection only after the identity service has accepted its token and character. It spawns the player, answers once, and drops connections that fail or stay silent. Timers, Mirror's sends, player additions and disconnects are explicit.
- **Movement authority and replication** (`Movement`, `NetworkPlayers`). The server moves an entity only to points the navigation mesh accepts. It broadcasts a state change exactly when the state changes.
- **Verification composition** (`ServerAuth`). The token check comes first, then the character fetch, and exactly one verdict is given.
- **The identity service** (`AuthData`, `Characters`, `Accounts`):
  - registration, login and token validation over a user store;
  - the character endpoints over a character store, with their ordered validation chains, ownership scoping, the global name-uniqueness rule and the three-characters-per-user limit.
- **The client** (`Session`, `CharacterCreation`, `LoginScreen`):
  - the session holder with its prefs store;
  - the input guards of the login and character-creation screens;
  - lemmas relating what the client lets through to what the server accepts.

Helpers:

- `Base`: `Option`, 3-vectors over reals, Unity's `Vector3 ==`.
- `Text`: .NET `char.IsWhiteSpace`, `Trim`, `IsNullOrWhiteSpace`, and `string.Length` counted in UTF-16 code units.
- `Decimal`: `int.ToString` and `int.TryParse` over the 32-bit range.

Foreign code is passed in as parameters or function-typed fields:

- BCrypt: `Accounts.Crypto`.
- The JWT handler: `Accounts.JwtHandler`.
- `NavMesh.SamplePosition`: `PlayerMovementServer.samplePosition`.
- The navigation agent's per-tick report: `Movement.AgentStatus`.
- HTTP results and `JsonUtility` parsing: `ServerAuth.WebResult` and `ServerAuth.Parsers`. Request bodies are flat JSON objects (`Base.JsonObject`).
- `GetStartPosition`: the `startPosition` argument.
- `DateTime.UtcNow` and the server clock: `now` and `clock`.
- BCrypt's random salt: `salt`.

Mirror's RPCs, sends, player additions and disconnects are event logs appended by the methods that cause them. Coroutines and `Invoke` are timers that `Admission.MmoNetworkManager.Fire` runs when they are due.

## Model

| member | source | states |
|---|---|---|
| Base.ApproxEqualBounds | Scripts/Networking/MMO_NetworkManager.cs:121 | Unity's `Vector3 ==` holds for equal vectors and fails once any coordinate differs by at least 1e-5 |
| Text.Trim | Scripts/UI/LoginUI.cs:51 | the trimmed string is empty exactly when the input is all white space; otherwise it is the input's slice that starts and ends with non-white-space, with only white space before and after it |
| Text.TrimIdempotent | Scripts/UI/CharacterCreateUI.cs:66 | trimming twice equals trimming once |
| Text.Utf16Length | AuthServer/Controllers/AuthController.cs:33 | `string.Length` counts a character outside the Basic Multilingual Plane twice: between the number of characters and twice that, equal to it without such characters and to twice it when all are |
| Decimal.TryParseInt32 | AuthServer/Controllers/CharactersController.cs:183 | `int.TryParse` succeeds only with a value in the 32-bit range |
| Decimal.ParseOfToDecimal | AuthServer/Controllers/AuthController.cs:134 | a 32-bit id written by `ToString` parses back to the same id |
| NetworkPlayers.ReplayIsLast | Scripts/Networking/NetworkPlayer.cs:97-103 | an observer that applies every broadcast in order holds the last state broadcast |
| NetworkPlayers.NoRepeatedStateAppend | Scripts/Networking/NetworkPlayer.cs:88-95 | broadcasting a state different from the one in force keeps the broadcast log free of consecutive repeats |
| NetworkPlayers.NetworkPlayer.constructor | Scripts/Networking/NetworkPlayer.cs:12-22 | a fresh entity is `Idle`, has broadcast nothing, and has default character fields |
| NetworkPlayers.NetworkPlayer.SetCharacterData | Scripts/Networking/NetworkPlayer.cs:67-75 | copies id, name, race and class; the frame allows no other field to change |
| NetworkPlayers.NetworkPlayer.SetState | Scripts/Networking/NetworkPlayer.cs:87-95 | setting the current state changes nothing and broadcasts nothing; a different state is applied and broadcast exactly once; the log stays repeat-free and replays to the current state |
| NetworkPlayers.NetworkPlayer.RpcUpdateState | Scripts/Networking/NetworkPlayer.cs:97-108 | the observer's copy takes the broadcast state, and `GetState` returns it |
| Movement.PlayerMovementServer.constructor | Scripts/Gameplay/PlayerMovementServer.cs:22-36 | the controller starts idle with the agent's stopping distance set to 0.5 |
| Movement.PlayerMovementServer.MoveToPosition | Scripts/Gameplay/PlayerMovementServer.cs:60-78 | a failed radius-2 sample changes nothing; a successful one makes the sampled point (not the raw destination) the agent's target, sets moving, and broadcasts `Moving` only if not already moving |
| Movement.PlayerMovementServer.Update | Scripts/Gameplay/PlayerMovementServer.cs:80-96 | off the server or while idle nothing happens; while moving, the entity stops, broadcasting one `Idle`, exactly when no path is pending, remaining distance is within stopping distance, and there is no path or no velocity |
| Movement.PlayerMovementServer.StopMovement | Scripts/Gameplay/PlayerMovementServer.cs:98-106 | not moving, no path, state `Idle`; `Idle` is broadcast only if the entity was moving, so two stops broadcast one `Idle` |
| Movement.PlayerMovementServer.Teleport | Scripts/Gameplay/PlayerMovementServer.cs:108-119 | always stops first; warps to the radius-5 sample when there is one, and otherwise stays where it was |
| Movement.CmdRequestMove | Scripts/Networking/NetworkPlayer.cs:77-85 | without a controller nothing can change; with one, a failed radius-2 sample leaves target, moving flag, agent destination, entity state and broadcast log as they were, and a successful one pursues the sampled point, sets `Moving` and broadcasts it only if the entity was not moving; only those fields may change |
| Movement.LastRequestWins | Scripts/Gameplay/PlayerMovementServer.cs:66-67 | of two requests, the second one's sample is pursued when it exists; otherwise the first one stands (no queue) |
| ServerAuth.ValidateTokenCallbacks | Scripts/Networking/ServerAuthHandler.cs:37-75 | exactly one callback; `(true, userId)` iff the request succeeded and its body parses with `valid`, otherwise `(false, 0)` |
| ServerAuth.GetCharacterDataCallbacks | Scripts/Networking/ServerAuthHandler.cs:77-106 | exactly one callback; `(true, data)` iff the request succeeded and its body parses, with the parsed record; otherwise `(false, null)` |
| ServerAuth.ValidateTokenAndCharacter | Scripts/Networking/ServerAuthHandler.cs:13-35 | the token request comes first, carrying the token in its body as intended (the as-written `{}` body is the second Findings row); after a failed check no fetch is issued and the verdict is `(false, null)`; otherwise exactly one fetch of `/characters/{id}` with `Bearer <token>` and its verdict passed through; one callback, successful iff both steps succeed |
| ServerAuth.ValidateBodyAsWritten | Scripts/Networking/ServerAuthHandler.cs:43 | the body `JsonUtility.ToJson` makes of the anonymous object has no `token` member |
| ServerAuth.ValidateBody | Scripts/Networking/ServerAuthHandler.cs:43 | the intended body carries the token under `token` |
| ServerAuth.CharacterUrlNamesCharacter | Scripts/Networking/ServerAuthHandler.cs:79 | the fetch URL ends with the decimal character id, which the service's route parses back to that id |
| AuthData.FindClaim | AuthServer/Controllers/CharactersController.cs:179 | the first claim of the requested type, and nothing exactly when no claim has that type |
| AuthData.UserKeysAppend | AuthServer/Data/AppDbContext.cs:18-20 | appending a user under the next id and an unused username keeps ids and usernames unique |
| AuthData.CharacterKeysRemove | AuthServer/Controllers/CharactersController.cs:171 | removing a row keeps character ids unique |
| AuthData.AppDbContext.constructor | AuthServer/Data/AppDbContext.cs:10-11 | an empty store with both identity values at 1 |
| Characters.GetUserIdFromToken | AuthServer/Controllers/CharactersController.cs:177-187 | a value iff the first `userId` claim exists and its text parses as a 32-bit integer, and then that parsed value; nothing when the claim is missing or malformed |
| Characters.OwnedBy | AuthServer/Controllers/CharactersController.cs:29-30 | exactly the stored characters owned by that user |
| Characters.FindOwned | AuthServer/Controllers/CharactersController.cs:52-53 | the first row matching both id and owner; nothing exactly when the user owns no character with that id |
| Characters.GetCharacters | AuthServer/Controllers/CharactersController.cs:22-43 | 401 without a user id; otherwise one summary per character the caller owns, and exactly those |
| Characters.GetCharacter | AuthServer/Controllers/CharactersController.cs:45-70 | 401 without a user id; `Ok` iff the caller owns a character with that id, and only that character; 404 otherwise, including for another user's character |
| Characters.CheckCreate | AuthServer/Controllers/CharactersController.cs:79-106 | `Ok` with the resolved class iff the name is not blank and 3 to 30 UTF-16 code units long, race and class are whitelisted, the name is unused, and the caller has fewer than 3 characters |
| Characters.SupplementaryNameLength | AuthServer/Controllers/CharactersController.cs:80 | a name of two characters outside the Basic Multilingual Plane passes the length test; one of sixteen fails it |
| Characters.CreateCheckOrder | AuthServer/Controllers/CharactersController.cs:80-106 | each rejection message is given exactly when its own test fails and all earlier tests pass |
| Characters.OwnedByConcat | AuthServer/Controllers/CharactersController.cs:104 | the per-user count over a concatenation is the sum of the counts |
| Characters.CreatePreservesRules | AuthServer/Controllers/CharactersController.cs:100-123 | a character accepted by the chain keeps names globally unique and every user at 3 or fewer |
| Characters.RemovePreservesRules | AuthServer/Controllers/CharactersController.cs:171 | deleting a character keeps both rules |
| Characters.ReplacePreservesRules | AuthServer/Controllers/CharactersController.cs:148-151 | a position update keeps both rules |
| Characters.RemoveByKey | AuthServer/Controllers/CharactersController.cs:171 | with unique ids, removing the found row removes exactly the row with that id |
| Characters.CreateCharacter | AuthServer/Controllers/CharactersController.cs:72-133 | 401 or the chain's first failure leave the store unchanged; success (name length in UTF-16 code units) appends one character under the next id, owned by the caller, with the given name and race, the resolved class, at the origin; keys and rules are kept |
| Characters.UpdatePosition | AuthServer/Controllers/CharactersController.cs:135-156 | 401 or 404 leave the store unchanged; otherwise only the caller's character changes, and only its X/Y/Z and last-seen time |
| Characters.DeleteCharacter | AuthServer/Controllers/CharactersController.cs:158-175 | `Ok` iff the caller owns a character with that id; then exactly that row is gone and all others remain; otherwise 404 and no change |
| Accounts.TokenLifetime | AuthServer/Controllers/AuthController.cs:122-138 | a lifetime exists iff the key and hour count are present and the hours parse as a positive integer; it is hours × 3600 s, at least one hour |
| Accounts.GenerateJwtToken | AuthServer/Controllers/AuthController.cs:119-146 | a token exists iff the settings are usable; it signs the user's claims, valid from now, with an expiry one lifetime after now, so strictly after the issue time |
| Accounts.FindByUsername | AuthServer/Controllers/AuthController.cs:65 | a stored user with that username, the first in store order, or nothing exactly when none has it |
| Accounts.FindById | AuthServer/Controllers/AuthController.cs:107 | a stored user with that id, or nothing exactly when none has it; with unique keys, the one row keyed so |
| Accounts.CheckRegister | AuthServer/Controllers/AuthController.cs:30-37 | the input is accepted iff both fields are non-blank, the username has 3 to 50 UTF-16 code units and the password at least 6 |
| Accounts.RegisterCheckOrder | AuthServer/Controllers/AuthController.cs:30-37 | each 400 message is given exactly when its test fails and the earlier ones pass |
| Accounts.Register | AuthServer/Controllers/AuthController.cs:26-55 | a 400 (lengths in UTF-16 code units) or a 409 for a taken username leave the store unchanged; otherwise one user is appended with the salted hash and returned with its new id; ids and usernames stay unique |
| Accounts.Login | AuthServer/Controllers/AuthController.cs:57-77 | 400 for blank input; every 401 has the same message; a token only for a stored user whose hash verifies the password, carrying that user's id and username; the store is an input only |
| Accounts.LoginRefusedIffNoMatch | AuthServer/Controllers/AuthController.cs:64-71 | with unique usernames, a non-blank login is a 401 iff no user matches name and password, and `Ok` iff one does and the settings are usable |
| Accounts.ValidateToken | AuthServer/Controllers/AuthController.cs:79-117 | 500 without a secret key, decided first; `Ok` iff the token verifies, has an integer `userId` claim and that user exists, with that user's id and name, the id being the one the token's `userId` claim carries; every other failure is a 401 |
| Accounts.IssuedTokenIdentifiesUser | AuthServer/Controllers/AuthController.cs:132-137 | the `userId` claim of an issued token reads back as the user's id |
| Accounts.LoginTokenValidates | AuthServer/Controllers/AuthController.cs:74-111 | a login token validates, from its issue time until it expires, as the same user id and username the login returned |
| Accounts.LoginTokenValidAtIssue | AuthServer/Controllers/AuthController.cs:74-111 | a login token validates at its issue time as the user who logged in |
| Accounts.BindValidateRequest | AuthServer/Controllers/AuthController.cs:161-164 | the body's `token` member becomes `Token`; without one `Token` is the empty string |
| Accounts.RegisteredUserCanLogin | AuthServer/Controllers/AuthController.cs:44-76 | right after a successful registration, logging in with the same credentials succeeds as the new user |
| Accounts.FindByUsernameAppend | AuthServer/Controllers/AuthController.cs:65 | a name absent from the store is found as the user appended with it |
| Session.PlayerPrefs.GetString | Scripts/Utils/GameState.cs:61 | the stored string, or the fallback when the key is missing |
| Session.PlayerPrefs.GetInt | Scripts/Utils/GameState.cs:77 | the stored integer, or the fallback when the key is missing |
| Session.GameState.constructor | Scripts/Utils/GameState.cs:24-32 | all fields at their defaults, so the session token and user id come from the prefs store |
| Session.GameState.SetAuthToken | Scripts/Utils/GameState.cs:48-55 | the token is in the field and in the store, and the session presents it |
| Session.GameState.GetAuthToken | Scripts/Utils/GameState.cs:57-64 | the field when non-empty, otherwise the stored token or ""; what the session presents does not change |
| Session.GameState.SetUserId | Scripts/Utils/GameState.cs:66-71 | the id is in the field and in the store |
| Session.GameState.GetUserId | Scripts/Utils/GameState.cs:73-80 | the field when non-zero, otherwise the stored id or 0 |
| Session.GameState.SetSelectedCharacterId | Scripts/Utils/GameState.cs:82-90 | the id round-trips through its getter; the store is not in the frame |
| Session.GameState.SetCharacterData | Scripts/Utils/GameState.cs:92-100 | the record round-trips through its getter; the store is not in the frame |
| Session.GameState.ClearAuthData | Scripts/Utils/GameState.cs:102-113 | token, user id, selection, character data and the flag are reset, both keys are deleted and others kept; the session then presents "" and 0; the local player and connection flag are untouched |
| Session.GameState.SetLocalPlayer | Scripts/Utils/GameState.cs:117-121 | the local player is the one given |
| Session.GameState.ClearLocalPlayer | Scripts/Utils/GameState.cs:128-131 | the local player is cleared |
| Session.GameState.OnAuthenticationSuccess | Scripts/Utils/GameState.cs:133-137 | `IsAuthenticated()` becomes true |
| Session.GameState.OnAuthenticationFailed | Scripts/Utils/GameState.cs:139-145 | `IsAuthenticated()` becomes false |
| Session.GameState.SetConnectedToServer | Scripts/Utils/GameState.cs:152-160 | the flag round-trips through its getter |
| Session.SetThenGetToken | Scripts/Utils/GameState.cs:48-64 | a token set and then read back is the token set, and the store holds it too |
| CharacterCreation.OnCreateClicked | Scripts/UI/CharacterCreateUI.cs:64-91 | an out-of-range dropdown index throws before any check; then an empty trimmed name, a length outside 3 to 30 UTF-16 code units, and a character other than an ASCII letter or digit, each message exactly when its test decides; the request is sent iff all pass, with the trimmed name and the chosen race and class |
| CharacterCreation.TrimmedNamePattern | Scripts/UI/CharacterCreateUI.cs:84 | on a trimmed name, the regex's final-line-feed case cannot arise |
| CharacterCreation.OptionsMatchServer | Scripts/UI/CharacterCreateUI.cs:26-27 | the dropdown options are exactly the server's race and class whitelists |
| CharacterCreation.SubmittedPassesServerChecks | Scripts/UI/CharacterCreateUI.cs:71-90 | a request the form sends passes the server's name, race and class checks; the server can then refuse it only for a taken name or the limit |
| LoginScreen.OnLoginClicked | Scripts/UI/LoginUI.cs:49-62 | sent iff the trimmed username and the untrimmed password are non-empty, with exactly those values |
| LoginScreen.OnRegisterClicked | Scripts/UI/LoginUI.cs:64-89 | empty fields, then a username under 3 UTF-16 code units, then a password under 6, each message exactly when its test decides; the password is not trimmed |
| LoginScreen.SubmittedRegistrationPassesServer | Scripts/UI/LoginUI.cs:76-88 | a registration the form sends passes the server's checks when the username has at most 50 UTF-16 code units and the password is not blank |
| LoginScreen.BlankPasswordReachesServer | Scripts/UI/LoginUI.cs:82-88 | a password of six or more white-space characters is sent, and the server refuses it as missing |
| LoginScreen.LongUsernameReachesServer | Scripts/UI/LoginUI.cs:76-88 | a username over 50 UTF-16 code units after trimming is sent, and the server refuses it as too long |
| LoginScreen.OnLoginSucceeded | Scripts/UI/LoginUI.cs:100-104 | after a successful login the token and user id fields hold the returned values, the prefs store gains exactly those two entries, and the session presents both; no other field may change |
| Admission.SpawnPosition | Scripts/Networking/MMO_NetworkManager.cs:114-124 | the saved position unless it equals the origin under `Vector3 ==`; then the start point, or the origin when there is none |
| Admission.SpawnPositionRule | Scripts/Networking/MMO_NetworkManager.cs:114-124 | a character saved at the origin spawns at the start point or the origin; one with a coordinate at least 1e-5 from 0 spawns where it was saved |
| Admission.RejectionTimers | Scripts/Networking/MMO_NetworkManager.cs:89-91 | after a rejection, a disconnect one second later is pending, and no other timer is added or lost |
| Admission.RejectionTimersAsWritten | Scripts/Networking/MMO_NetworkManager.cs:90-91 | as written, a rejection schedules nothing: the timers are exactly those pending before |
| Admission.RejectedConnectionWaitsForTimeout | Scripts/Networking/MMO_NetworkManager.cs:90-91 | a connection rejected at 0.5 s keeps its 30 s timeout and waits until then as written, but is dropped at 1.5 s as intended |
| Admission.InFlightRemove | Scripts/Networking/MMO_NetworkManager.cs:59-94 | completing one verification takes exactly one off its connection's count of verifications in flight |
| Admission.LogAdmit | Scripts/Networking/MMO_NetworkManager.cs:69-76 | adding a player and then sending the success response keeps every addition followed by that response, and adds one response and one player for the connection |
| Admission.MmoNetworkManager.constructor | Scripts/Networking/MMO_NetworkManager.cs:13 | no connections, no pending entries, nothing in flight, no timers and no events |
| Admission.MmoNetworkManager.OnServerConnect | Scripts/Networking/MMO_NetworkManager.cs:33-40 | the connection is open without a player and a 30 s timeout is pending for it; nothing is sent or added |
| Admission.MmoNetworkManager.OnServerDisconnect | Scripts/Networking/MMO_NetworkManager.cs:42-52 | only that connection's `pendingAuth` entry is removed; its player is gone and the connection is closed |
| Admission.MmoNetworkManager.OnAuthenticationRequest | Scripts/Networking/MMO_NetworkManager.cs:54-62 | every request, even a repeated one, starts one verification |
| Admission.MmoNetworkManager.SpawnPlayerForConnection | Scripts/Networking/MMO_NetworkManager.cs:111-140 | a connection without a player gets a new one carrying the character's id, name, race and class, `Idle`, at `SpawnPosition`; one that has a player is left unchanged |
| Admission.MmoNetworkManager.CompleteVerification | Scripts/Networking/MMO_NetworkManager.cs:62-93 | on the composite verdict's success the player is added first and then one success response is sent; on failure one rejection is sent, no player is added, and the intended disconnect 1 s later is scheduled (the as-written schedule is the first Findings row) |
| Admission.MmoNetworkManager.AdmitNew | Scripts/Networking/MMO_NetworkManager.cs:64-76 | the addition is logged, then the success response, and the connection owns a player with the verified character's id |
| Admission.MmoNetworkManager.AdmitAgain | Scripts/Networking/MMO_NetworkManager.cs:69-76 | a second success for a connection that already has a player only sends the success response |
| Admission.MmoNetworkManager.Refuse | Scripts/Networking/MMO_NetworkManager.cs:78-91 | exactly one rejection with "Token ou personagem inválido", and the intended delayed disconnect is pending (the as-written schedule is the first Findings row) |
| Admission.MmoNetworkManager.Fire | Scripts/Networking/MMO_NetworkManager.cs:142-152 | a due 30 s timeout drops its open connection iff it still has no player, so an admitted connection is never dropped by it; a due delayed disconnect drops its open connection; the timer is used up |
| Admission.MmoNetworkManager.OnServerAddPlayer | Scripts/Networking/MMO_NetworkManager.cs:155-158 | adds no player and sends nothing |
| TokenBody.AsWrittenValidationRefusesEveryToken | Scripts/Networking/ServerAuthHandler.cs:43 | as written, the identity service reads an empty token from every validation request and answers 401, whatever token the player presented |
| TokenBody.ValidationBodyCarriesToken | Scripts/Networking/ServerAuthHandler.cs:43 | with the token in the body, the identity service checks the presented token, and a login token is accepted as its user |
| Admission.OnAuthenticationResponse | Scripts/Networking/MMO_NetworkManager.cs:97-109 | the client's session is authenticated exactly when the server accepted |

Every method of `Admission.MmoNetworkManager` keeps `Valid()`. That invariant states:

- each request is answered exactly once: per connection, responses sent plus verifications in flight equal requests received;
- a connection owns a player only after a player was added for it;
- every player addition is immediately followed by the success response to the same connection;
- every open connection without a player has its 30 s timeout pending, due 30 s after it connected.

## Left out

- I/O, logging, scene loading, status texts and loading panels are not modelled (`SetStatus`, `SetLoading`, `Debug.Log`, `LoadCharacterSelectScene`).
- `ApiClient`, `WorldConnectionManager` and the other context scripts are not modelled. The HTTP answers they produce are parameters.
- `JsonUtility` serialisation is modelled only for the validation body; the fetch request is recorded by URL and `Authorization` header. The identity service's model binding is modelled only for the `token` member, under that exact name.
- ServerAuth.ValidateTokenCallbacks: the callback is assumed to return normally. In the source a callback that throws inside the `try` is caught, and the final `(false, 0)` call follows it.
- ServerAuth.GetCharacterDataCallbacks: the callback is assumed to return normally. In the source a callback that throws inside the `try` is caught, and the final `(false, null)` call follows it.
- ServerAuth.ValidateTokenAndCharacter: the callbacks are assumed to return normally, so a throwing spawn is not followed by a second, failing verdict as it would be in the source.
- Floating point is not modelled. Positions are reals, and the speed, rotation and `autoBraking` settings of the agent are left out.
- Unity's `Vector3 ==` is modelled with its tolerance (squared distance below 1e-10) rather than exact equality.
- Coroutine interleaving is not modelled. Each verification is completed atomically by `CompleteVerification`, in any order the caller chooses.
- Timers fire only when the caller runs `Fire` with a due timer. The model does not force a due timer to fire.
- Admission.MmoNetworkManager.SpawnPlayerForConnection: the case of a connection that closed while its verification was in flight is modelled with Mirror's rule that a connection with a player gets no second one. Mirror's own handling of a closed connection is not modelled. The instantiated but unadded object of a refused addition is not modelled either.
- Mirror's `[Command]` authority check, which decides who may call `CmdRequestMove`, is not modelled. It is not in the visible code.
- `NetworkPlayer`'s `Awake`, `OnStartServer`, `OnStartClient`, `OnStartLocalPlayer` and `OnDestroy` are left out. They only bind components, cameras and the session holder.
- `PlayerMovementServer.OnStartServer`/`OnStartClient` are left out. They only disable the agent on clients. `IsMoving` and `GetTargetPosition` are plain field reads.
- `CoroutineRunner` and the `GameState.Instance` singleton lifecycle are left out.
- `PlayerPrefs.Save` is left out. It flushes to disk and does not change what the store holds.
- Accounts.GenerateJwtToken: `DateTime.AddHours` overflow for huge hour counts is not modelled.
- Accounts.TokenLifetime: an hour count that carries the expiry past the year 9999 makes `AddHours` throw; the model has no calendar bound.
- Accounts.GenerateJwtToken: the token handler's minimum key size for HMAC-SHA256, which depends on the library version, is not modelled; a short key is assumed to sign. `Encoding.ASCII` turns non-ASCII key characters into `?`; the key is passed to the handler as text.
- Decimal.TryParseInt32: number parsing assumes the invariant culture's signs. `int.Parse` in `GenerateJwtToken` accepts the same texts, and its exception is a missing token lifetime.
- BCrypt and the JWT handler are uninterpreted functions. Their security properties enter only as the hypotheses `HashVerifies` and `SignedTokensValidate`.
- Integer overflow of the identity values is not modelled. The database assigns ids as unbounded integers.
- Characters.CreateCharacter: requests are modelled as atomic and one at a time. In the source the name and count checks and the insert are separated by awaits, and neither rule has a unique database index, so two concurrent creations can both pass and break name uniqueness or the three-character limit.
- Characters.CreatePreservesRules: the rules are proved for serialised requests only; concurrent creations are not covered (see the line above).
- Accounts.Register: requests are modelled as atomic and one at a time. Two concurrent registrations of the same new username both pass the check; the unique `Username` index then makes the second save throw, an unhandled 500 the model does not have.
- Admission.MmoNetworkManager.Refuse: schedules the intended one-second disconnect (`RejectionTimers`), not the as-written empty schedule of the first Findings row.
- Admission.MmoNetworkManager.CompleteVerification: its failure branch goes through `Refuse`, so it composes the intended disconnect of the first Findings row.
- ServerAuth.ValidateTokenAndCharacter: posts the intended body `ValidateBody`, not the as-written `{}` of the second Findings row; as written, every verification fails.
- The character record the game server fetches carries the class under the member `class`, while `CharacterData` reads `characterClass`, so as written the spawned player's class is most likely empty. `ServerAuth.Parsers.characterData` is an oracle and does not show this.
- Nullable reference types are assumed off in the identity service. With them on, `[ApiController]` would treat every non-nullable string member as required and answer an empty or missing one with an automatic 400 before the actions' own checks.

## Findings

| source | as written | input that shows it | evidently intended | confidence | as-written member | corrected member |
|---|---|---|---|---|---|---|
| Scripts/Networking/MMO_NetworkManager.cs:90-91 | `Invoke(nameof(DisconnectClient), 1f)` names a local function. Unity's `Invoke` looks the name up among the component's methods, so nothing is scheduled. | A connection rejected 0.5 s after connecting has no timer before the 30 s timeout. | The rejected connection is dropped 1 s after the rejection. | medium; not executed | Admission.RejectionTimersAsWritten | Admission.RejectionTimers |
| Scripts/Networking/ServerAuthHandler.cs:43 | `JsonUtility.ToJson(new { token = token })` serialises an anonymous object. `JsonUtility` writes only public fields of serialisable classes and structs, so the body is `{}`. | Any token, even one just issued by a login: the identity service binds `Token` to the empty string, `ValidateToken` throws, and the answer is 401 (AuthController.cs:113-115). | The body is `{"token": <token>}` and the presented token is checked. | high; not executed | TokenBody.AsWrittenValidationRefusesEveryToken | TokenBody.ValidationBodyCarriesToken |
