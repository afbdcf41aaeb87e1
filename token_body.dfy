/**
 * The validation request as it crosses from the game server
 * (Scripts/Networking/ServerAuthHandler.cs) to the identity service
 * (AuthServer/Controllers/AuthController.cs): what body the game server sends,
 * and what the identity service reads from it.
 */
module TokenBody {
  import opened Base
  import opened AuthData
  import Characters
  import Decimal
  import Accounts
  import ServerAuth

  /** As written, every validation request reaches the identity service with an empty
      token, which it refuses as invalid whatever token the player presented: no player
      is ever admitted. */
  lemma AsWrittenValidationRefusesEveryToken(users: seq<User>, token: string, settings: Accounts.JwtSettings,
                                             jwt: Accounts.JwtHandler, now: int)
    requires settings.secretKey != []
    requires Accounts.RejectsEmptyToken(jwt)
    ensures Accounts.BindValidateRequest(ServerAuth.ValidateBodyAsWritten(token)).token == []
    ensures Accounts.ValidateToken(users, Accounts.BindValidateRequest(ServerAuth.ValidateBodyAsWritten(token)),
                                   settings, jwt, now)
            == Unauthorized(Characters.InvalidTokenMessage)
  {
    assert jwt.read([], settings.secretKey, now).None?;
  }

  /** With the token in the body, the identity service checks the very token the player
      presented: a token from a successful login is accepted, at its issue time, as the
      user who logged in. */
  lemma ValidationBodyCarriesToken(users: seq<User>, nextId: int, req: Accounts.LoginRequest,
                                   crypto: Accounts.Crypto, settings: Accounts.JwtSettings,
                                   jwt: Accounts.JwtHandler, now: int)
    requires UserKeys(users, nextId) && forall u :: u in users ==> Decimal.IsInt32(u.id)
    requires Accounts.SignedTokensValidate(jwt)
    requires Accounts.Login(users, req, crypto, settings, jwt, now).Ok?
    ensures var login := Accounts.Login(users, req, crypto, settings, jwt, now).value;
      var bound := Accounts.BindValidateRequest(ServerAuth.ValidateBody(login.token));
      && bound.token == login.token
      && Accounts.ValidateToken(users, bound, settings, jwt, now)
           == Ok(Accounts.ValidateResponse(true, login.userId, login.username))
  {
    var login := Accounts.Login(users, req, crypto, settings, jwt, now).value;
    assert Accounts.BindValidateRequest(ServerAuth.ValidateBody(login.token)) == Accounts.ValidateTokenRequest(login.token);
    Accounts.LoginTokenValidAtIssue(users, nextId, req, crypto, settings, jwt, now);
  }
}
