/**
 * The account endpoints of the identity service
 * (AuthServer/Controllers/AuthController.cs): registration, login with a signed
 * token, and token validation for the game server.
 *
 * Password hashing and the token handler are oracles. `Crypto.hash` is
 * `BCrypt.HashPassword` with its random salt made a parameter, `Crypto.verify`
 * is `BCrypt.Verify`. `JwtHandler.write` signs a token's content with the secret
 * key; `JwtHandler.read` checks the signature with that key and the lifetime at
 * a given time, `None` standing for the exception `ValidateToken` throws.
 * Times are in seconds.
 */
module Accounts {
  import opened Base
  import opened Text
  import opened Decimal
  import opened AuthData
  import opened Characters

  const MinUsernameLength: nat := 3
  const MaxUsernameLength: nat := 50
  const MinPasswordLength: nat := 6
  const SecondsPerHour: int := 3600
  /** `ClaimTypes.Name`. */
  const NameClaimType := "http://schemas.xmlsoap.org/ws/2005/05/identity/claims/name"
  const UsernameClaim := "username"

  const RequiredMessage := "Username e password são obrigatórios"
  const UsernameLengthMessage := "Username deve ter entre 3 e 50 caracteres"
  const PasswordLengthMessage := "Password deve ter no mínimo 6 caracteres"
  const UsernameTakenMessage := "Username já existe"
  const RegisteredMessage := "Usuário criado com sucesso"
  const BadCredentialsMessage := "Username ou password inválidos"
  const JwtConfigMessage := "Configuração de JWT inválida"
  const JwtMissingMessage := "Configuração de JWT não encontrada"
  const UserNotFoundMessage := "Usuário não encontrado"

  datatype RegisterRequest = RegisterRequest(username: string, password: string)
  datatype LoginRequest = LoginRequest(username: string, password: string)
  datatype ValidateTokenRequest = ValidateTokenRequest(token: string)

  datatype Registered = Registered(message: string, userId: int)
  datatype LoginResponse = LoginResponse(token: string, userId: int, username: string)
  datatype ValidateResponse = ValidateResponse(valid: bool, userId: int, username: string)

  /** `JwtSettings:SecretKey` and `JwtSettings:ExpirationHours`; a missing entry is empty. */
  datatype JwtSettings = JwtSettings(secretKey: string, expirationHours: string)

  datatype Crypto = Crypto(hash: (string, string) -> string, verify: (string, string) -> bool)

  /** What a token carries: its claims, the time before which it is not valid, and its
      expiry time. */
  datatype TokenContent = TokenContent(claims: seq<Claim>, notBefore: int, expires: int)

  datatype JwtHandler = JwtHandler(
    write: (TokenContent, string) -> string,
    read: (string, string, int) -> Option<TokenContent>)

  /** The handler accepts, from its not-before time until its expiry (no clock skew), a
      token it signed with the same non-empty key, and gives back its content. */
  ghost predicate SignedTokensValidate(jwt: JwtHandler) {
    forall content: TokenContent, key: string, now: int {:trigger jwt.read(jwt.write(content, key), key, now)} ::
      key != [] && content.notBefore <= now < content.expires ==>
        jwt.read(jwt.write(content, key), key, now) == Some(content)
  }

  /** A password hashed with any salt verifies against that hash. */
  ghost predicate HashVerifies(crypto: Crypto) {
    forall password: string, salt: string {:trigger crypto.hash(password, salt)} ::
      crypto.verify(password, crypto.hash(password, salt))
  }

  /** The claims of a login token: the decimal user id, the username, and the username
      again as the standard name claim. */
  function TokenClaims(user: User): seq<Claim> {
    [Claim(UserIdClaim, ToDecimal(user.id)), Claim(UsernameClaim, user.username),
     Claim(NameClaimType, user.username)]
  }

  /** The handler refuses an empty token before it looks at the key or the lifetime
      (the argument check of `ValidateToken`, which throws). */
  ghost predicate RejectsEmptyToken(jwt: JwtHandler) {
    forall key: string, now: int :: jwt.read([], key, now).None?
  }

  /** How the identity service binds a validation body to `ValidateTokenRequest`: the
      member `token` fills `Token`; without it `Token` keeps its initial empty string. */
  function BindValidateRequest(body: JsonObject): (r: ValidateTokenRequest)
    ensures "token" in body ==> r.token == body["token"]
    ensures "token" !in body ==> r.token == []
  {
    ValidateTokenRequest(if "token" in body then body["token"] else [])
  }

  /** The lifetime a valid configuration gives a token, in seconds; nothing when the
      configuration is incomplete, the hour count is not an integer, or it is not positive
      (the exceptions of `GenerateJwtToken`: `CreateToken` sets the not-before time to the
      issue time and refuses an expiry that is not after it). */
  function TokenLifetime(settings: JwtSettings): (r: Option<int>)
    ensures r.Some? <==> && !IsNullOrEmpty(settings.secretKey)
                         && !IsNullOrEmpty(settings.expirationHours)
                         && TryParseInt32(settings.expirationHours).Some?
                         && TryParseInt32(settings.expirationHours).value > 0
    ensures r.Some? ==> r.value == TryParseInt32(settings.expirationHours).value * SecondsPerHour
    ensures r.Some? ==> r.value >= SecondsPerHour
  {
    if IsNullOrEmpty(settings.secretKey) || IsNullOrEmpty(settings.expirationHours) then None
    else
      match TryParseInt32(settings.expirationHours)
      case None => None
      case Some(hours) => if hours <= 0 then None else Some(hours * SecondsPerHour)
  }

  /** `GenerateJwtToken`: the user's claims, valid from `now` and expiring one lifetime later, signed
      with the secret key; nothing where the source throws. */
  function GenerateJwtToken(user: User, settings: JwtSettings, jwt: JwtHandler, now: int): (r: Option<string>)
    ensures r.Some? <==> TokenLifetime(settings).Some?
    ensures r.Some? ==> now < now + TokenLifetime(settings).value
    ensures r.Some? ==>
      r.value == jwt.write(TokenContent(TokenClaims(user), now, now + TokenLifetime(settings).value), settings.secretKey)
  {
    match TokenLifetime(settings)
    case None => None
    case Some(lifetime) => Some(jwt.write(TokenContent(TokenClaims(user), now, now + lifetime), settings.secretKey))
  }

  /** `FirstOrDefault(u => u.Username == username)`: the first stored user with that
      username. */
  function FindByUsername(users: seq<User>, username: string): (r: Option<User>)
    ensures r.Some? ==> r.value in users && r.value.username == username
    ensures r.None? <==> forall u :: u in users ==> u.username != username
    ensures r.Some? ==>
      exists i :: 0 <= i < |users| && users[i] == r.value && (forall j :: 0 <= j < i ==> users[j].username != username)
  {
    if users == [] then None
    else if users[0].username == username then Some(users[0])
    else FindByUsername(users[1..], username)
  }

  /** `FindAsync(id)`: the user with that primary key; when the keys are unique, the one
      row that has it. */
  function FindById(users: seq<User>, id: int): (r: Option<User>)
    ensures r.Some? ==> r.value in users && r.value.id == id
    ensures r.None? <==> forall u :: u in users ==> u.id != id
    ensures (forall i, j :: 0 <= i < j < |users| ==> users[i].id != users[j].id) ==>
      forall u :: u in users && u.id == id ==> r == Some(u)
  {
    if users == [] then None
    else if users[0].id == id then Some(users[0])
    else FindById(users[1..], id)
  }

  /** The input checks of `Register`, first failure wins: the message of the 400 answer,
      or nothing when the input is acceptable. */
  function CheckRegister(req: RegisterRequest): (r: Option<string>)
    ensures r.None? <==>
      && !IsNullOrWhiteSpace(req.username) && !IsNullOrWhiteSpace(req.password)
      && MinUsernameLength <= Utf16Length(req.username) <= MaxUsernameLength
      && MinPasswordLength <= Utf16Length(req.password)
  {
    if IsNullOrWhiteSpace(req.username) || IsNullOrWhiteSpace(req.password) then Some(RequiredMessage)
    else if Utf16Length(req.username) < MinUsernameLength || Utf16Length(req.username) > MaxUsernameLength then
      Some(UsernameLengthMessage)
    else if Utf16Length(req.password) < MinPasswordLength then Some(PasswordLengthMessage)
    else None
  }

  /** Which message a rejected registration gets: each exactly when its own test fails and
      the earlier ones pass. */
  lemma RegisterCheckOrder(req: RegisterRequest)
    ensures var r := CheckRegister(req);
      var blank := IsNullOrWhiteSpace(req.username) || IsNullOrWhiteSpace(req.password);
      var badName := Utf16Length(req.username) < MinUsernameLength || Utf16Length(req.username) > MaxUsernameLength;
      && (r == Some(RequiredMessage) <==> blank)
      && (r == Some(UsernameLengthMessage) <==> !blank && badName)
      && (r == Some(PasswordLengthMessage) <==> !blank && !badName && Utf16Length(req.password) < MinPasswordLength)
  {
    assert RequiredMessage != UsernameLengthMessage && RequiredMessage != PasswordLengthMessage;
    assert UsernameLengthMessage != PasswordLengthMessage;
  }

  /** `POST /api/auth/register`: a rejected input or a taken username leaves the store
      unchanged; otherwise one user is appended under the next id with the salted hash of
      the password, never the password itself. Keys and usernames stay unique. */
  method Register(db: AppDbContext, req: RegisterRequest, crypto: Crypto, salt: string, now: int)
    returns (r: ActionResult<Registered>)
    requires db.Valid()
    modifies db`users, db`nextUserId
    ensures db.Valid()
    ensures CheckRegister(req).Some? ==> r == BadRequest(CheckRegister(req).value) && unchanged(db)
    ensures CheckRegister(req).None? && FindByUsername(old(db.users), req.username).Some? ==>
      r == Conflict(UsernameTakenMessage) && unchanged(db)
    ensures CheckRegister(req).None? && FindByUsername(old(db.users), req.username).None? ==>
      var id := old(db.nextUserId);
      && db.users == old(db.users) + [User(id, req.username, crypto.hash(req.password, salt), now)]
      && db.nextUserId == id + 1
      && r == Ok(Registered(RegisteredMessage, id))
  {
    var check := CheckRegister(req);
    if check.Some? {
      return BadRequest(check.value);
    }
    if FindByUsername(db.users, req.username).Some? {
      return Conflict(UsernameTakenMessage);
    }
    var id := db.nextUserId;
    var user := User(id, req.username, crypto.hash(req.password, salt), now);
    UserKeysAppend(db.users, id, user);
    db.users := db.users + [user];
    db.nextUserId := id + 1;
    return Ok(Registered(RegisteredMessage, id));
  }

  /** `POST /api/auth/login`: blank input is a 400; an unknown username and a wrong
      password give the same 401, so the answer does not reveal which; a right password
      gets a token for that user, or a 500 when the token settings are unusable. */
  function Login(users: seq<User>, req: LoginRequest, crypto: Crypto, settings: JwtSettings,
                 jwt: JwtHandler, now: int): (r: ActionResult<LoginResponse>)
    ensures IsNullOrWhiteSpace(req.username) || IsNullOrWhiteSpace(req.password) ==>
      r == BadRequest(RequiredMessage)
    ensures r.Unauthorized? ==> r.message == BadCredentialsMessage
    ensures r.Ok? ==>
      exists u :: && u in users && u.username == req.username
                  && crypto.verify(req.password, u.passwordHash)
                  && GenerateJwtToken(u, settings, jwt, now) == Some(r.value.token)
                  && r.value.userId == u.id && r.value.username == u.username
    ensures r.Ok? || r.BadRequest? || r.Unauthorized? || r.ServerError?
  {
    if IsNullOrWhiteSpace(req.username) || IsNullOrWhiteSpace(req.password) then
      BadRequest(RequiredMessage)
    else
      match FindByUsername(users, req.username)
      case None => Unauthorized(BadCredentialsMessage)
      case Some(user) =>
        if !crypto.verify(req.password, user.passwordHash) then Unauthorized(BadCredentialsMessage)
        else
          match GenerateJwtToken(user, settings, jwt, now)
          case None => ServerError(JwtMissingMessage)
          case Some(token) => Ok(LoginResponse(token, user.id, user.username))
  }

  /** With unique usernames, a non-blank login is refused with 401 exactly when no stored
      user has that username and a password hash the password verifies against, and is
      answered with a token exactly when there is one and the token settings are usable. */
  lemma LoginRefusedIffNoMatch(users: seq<User>, nextId: int, req: LoginRequest, crypto: Crypto,
                               settings: JwtSettings, jwt: JwtHandler, now: int)
    requires UserKeys(users, nextId)
    requires !IsNullOrWhiteSpace(req.username) && !IsNullOrWhiteSpace(req.password)
    ensures var r := Login(users, req, crypto, settings, jwt, now);
      var matched := exists u :: u in users && u.username == req.username
                                 && crypto.verify(req.password, u.passwordHash);
      && (r.Unauthorized? <==> !matched)
      && (r.Ok? <==> matched && TokenLifetime(settings).Some?)
  {
    var found := FindByUsername(users, req.username);
    if found.Some? {
      forall u | u in users && u.username == req.username
        ensures u == found.value
      {
        var i :| 0 <= i < |users| && users[i] == u;
        var j :| 0 <= j < |users| && users[j] == found.value;
        assert i == j;
      }
    }
  }

  /** `POST /api/auth/validate`: a 500 when no secret key is configured, checked before
      the token; otherwise the token must verify, carry a parseable user id, and name a
      stored user, whose id and username are returned. */
  function ValidateToken(users: seq<User>, req: ValidateTokenRequest, settings: JwtSettings,
                         jwt: JwtHandler, now: int): (r: ActionResult<ValidateResponse>)
    ensures IsNullOrEmpty(settings.secretKey) ==> r == ServerError(JwtConfigMessage)
    ensures r.Ok? <==>
      && !IsNullOrEmpty(settings.secretKey)
      && jwt.read(req.token, settings.secretKey, now).Some?
      && GetUserIdFromToken(jwt.read(req.token, settings.secretKey, now).value.claims).Some?
      && exists u :: u in users
                     && Some(u.id) == GetUserIdFromToken(jwt.read(req.token, settings.secretKey, now).value.claims)
    ensures r.Ok? ==> r.value.valid && exists u :: u in users && u.id == r.value.userId && u.username == r.value.username
    ensures r.Ok? ==>
      Some(r.value.userId) == GetUserIdFromToken(jwt.read(req.token, settings.secretKey, now).value.claims)
    ensures !r.Ok? && !IsNullOrEmpty(settings.secretKey) ==>
      r == Unauthorized(InvalidTokenMessage) || r == Unauthorized(UserNotFoundMessage)
  {
    if IsNullOrEmpty(settings.secretKey) then ServerError(JwtConfigMessage)
    else
      match jwt.read(req.token, settings.secretKey, now)
      case None => Unauthorized(InvalidTokenMessage)
      case Some(content) =>
        match GetUserIdFromToken(content.claims)
        case None => Unauthorized(InvalidTokenMessage)
        case Some(userId) =>
          match FindById(users, userId)
          case None => Unauthorized(UserNotFoundMessage)
          case Some(user) => Ok(ValidateResponse(true, user.id, user.username))
  }

  /** The user id the character endpoints read from a login token is the id of the user
      it was issued to. */
  lemma IssuedTokenIdentifiesUser(user: User)
    requires IsInt32(user.id)
    ensures GetUserIdFromToken(TokenClaims(user)) == Some(user.id)
  {
    var claims := TokenClaims(user);
    assert ClaimIndex(claims, UserIdClaim) == 0;
    ParseOfToDecimal(user.id);
  }

  /** A token from a successful login validates, until it expires, as the user who
      logged in. */
  lemma LoginTokenValidates(users: seq<User>, nextId: int, req: LoginRequest, crypto: Crypto,
                            settings: JwtSettings, jwt: JwtHandler, now: int, later: int)
    requires UserKeys(users, nextId) && forall u :: u in users ==> IsInt32(u.id)
    requires SignedTokensValidate(jwt)
    requires Login(users, req, crypto, settings, jwt, now).Ok?
    requires now <= later < now + TokenLifetime(settings).value
    ensures var login := Login(users, req, crypto, settings, jwt, now).value;
      ValidateToken(users, ValidateTokenRequest(login.token), settings, jwt, later)
        == Ok(ValidateResponse(true, login.userId, login.username))
  {
    var user := FindByUsername(users, req.username).value;
    var content := TokenContent(TokenClaims(user), now, now + TokenLifetime(settings).value);
    assert jwt.read(jwt.write(content, settings.secretKey), settings.secretKey, later) == Some(content);
    IssuedTokenIdentifiesUser(user);
    var found := FindById(users, user.id).value;
    assert found == user by {
      var i :| 0 <= i < |users| && users[i] == found;
      var j :| 0 <= j < |users| && users[j] == user;
      assert i == j;
    }
  }

  /** A token is valid from the moment it is issued: the hour count is positive, so the
      token has not expired when it is checked at its issue time. */
  lemma LoginTokenValidAtIssue(users: seq<User>, nextId: int, req: LoginRequest, crypto: Crypto,
                               settings: JwtSettings, jwt: JwtHandler, now: int)
    requires UserKeys(users, nextId) && forall u :: u in users ==> IsInt32(u.id)
    requires SignedTokensValidate(jwt)
    requires Login(users, req, crypto, settings, jwt, now).Ok?
    ensures var login := Login(users, req, crypto, settings, jwt, now).value;
      ValidateToken(users, ValidateTokenRequest(login.token), settings, jwt, now)
        == Ok(ValidateResponse(true, login.userId, login.username))
  {
    var user := FindByUsername(users, req.username).value;
    assert GenerateJwtToken(user, settings, jwt, now).Some?;
    LoginTokenValidates(users, nextId, req, crypto, settings, jwt, now, now);
  }

  /** A user who has just registered can log in with the same password, once the hash
      verifies the password it was made from. */
  lemma RegisteredUserCanLogin(users: seq<User>, nextId: int, req: RegisterRequest, crypto: Crypto,
                               salt: string, createdAt: int, settings: JwtSettings, jwt: JwtHandler, now: int)
    requires HashVerifies(crypto)
    requires CheckRegister(req).None? && FindByUsername(users, req.username).None?
    requires TokenLifetime(settings).Some?
    ensures var stored := users + [User(nextId, req.username, crypto.hash(req.password, salt), createdAt)];
      var r := Login(stored, LoginRequest(req.username, req.password), crypto, settings, jwt, now);
      r.Ok? && r.value.userId == nextId && r.value.username == req.username
  {
    var user := User(nextId, req.username, crypto.hash(req.password, salt), createdAt);
    FindByUsernameAppend(users, user);
    assert crypto.verify(req.password, crypto.hash(req.password, salt));
  }

  /** Looking a name up in a store that lacks it, extended by one user with that name,
      finds that user. */
  lemma {:induction false} FindByUsernameAppend(users: seq<User>, user: User)
    requires FindByUsername(users, user.username).None?
    ensures FindByUsername(users + [user], user.username) == Some(user)
  {
    if users == [] {
      assert users + [user] == [user];
    } else {
      assert (users + [user])[1..] == users[1..] + [user];
      FindByUsernameAppend(users[1..], user);
    }
  }
}
