/**
 * The client's login screen (Scripts/UI/LoginUI.cs): the checks `OnLoginClicked`
 * and `OnRegisterClicked` make before a request is sent, and what a successful
 * login leaves in the session holder. The username is trimmed; the password is
 * sent as typed.
 */
module LoginScreen {
  import opened Base
  import opened Text
  import opened Session
  import opened Accounts

  const FillAllFieldsMessage := "Preencha todos os campos!"
  const UsernameTooShortMessage := "Username deve ter no mínimo 3 caracteres!"
  const PasswordTooShortMessage := "Senha deve ter no mínimo 6 caracteres!"

  /** A click either shows a message and sends nothing, or sends the request with these
      credentials. */
  datatype FormOutcome = Rejected(message: string) | Submitted(username: string, password: string)

  /** `OnLoginClicked`. */
  function OnLoginClicked(usernameInput: string, passwordInput: string): (r: FormOutcome)
    ensures r.Submitted? <==> Trim(usernameInput) != [] && passwordInput != []
    ensures r.Submitted? ==> r.username == Trim(usernameInput) && r.password == passwordInput
    ensures r.Rejected? ==> r.message == FillAllFieldsMessage
  {
    var username := Trim(usernameInput);
    if IsNullOrEmpty(username) || IsNullOrEmpty(passwordInput) then Rejected(FillAllFieldsMessage)
    else Submitted(username, passwordInput)
  }

  /** `OnRegisterClicked`: empty fields, then a username under 3 characters, then a
      password under 6, the first failure deciding the message. */
  function OnRegisterClicked(usernameInput: string, passwordInput: string): (r: FormOutcome)
    ensures r.Submitted? <==> 3 <= Utf16Length(Trim(usernameInput)) && 6 <= Utf16Length(passwordInput)
    ensures r.Submitted? ==> r.username == Trim(usernameInput) && r.password == passwordInput
    ensures r == Rejected(FillAllFieldsMessage) <==> Trim(usernameInput) == [] || passwordInput == []
    ensures r == Rejected(UsernameTooShortMessage) <==>
      Trim(usernameInput) != [] && passwordInput != [] && Utf16Length(Trim(usernameInput)) < 3
    ensures r == Rejected(PasswordTooShortMessage) <==>
      && Trim(usernameInput) != [] && passwordInput != []
      && 3 <= Utf16Length(Trim(usernameInput)) && Utf16Length(passwordInput) < 6
  {
    var username := Trim(usernameInput);
    if IsNullOrEmpty(username) || IsNullOrEmpty(passwordInput) then Rejected(FillAllFieldsMessage)
    else if Utf16Length(username) < 3 then Rejected(UsernameTooShortMessage)
    else if Utf16Length(passwordInput) < 6 then Rejected(PasswordTooShortMessage)
    else Submitted(username, passwordInput)
  }

  /** A trimmed, non-empty username is never blank to the server. */
  lemma TrimmedNotBlank(s: string)
    requires Trim(s) != []
    ensures !IsNullOrWhiteSpace(Trim(s))
  {
    assert !IsWhiteSpace(Trim(s)[0]);
  }

  /** A registration the form sends passes the server's checks whenever the username is
      at most 50 characters and the password is not all white space: the form checks
      neither of these itself. */
  lemma SubmittedRegistrationPassesServer(usernameInput: string, passwordInput: string)
    requires OnRegisterClicked(usernameInput, passwordInput).Submitted?
    requires Utf16Length(Trim(usernameInput)) <= MaxUsernameLength
    requires !IsNullOrWhiteSpace(passwordInput)
    ensures var s := OnRegisterClicked(usernameInput, passwordInput);
      CheckRegister(RegisterRequest(s.username, s.password)).None?
  {
    TrimmedNotBlank(usernameInput);
  }

  /** The form sends a password of six or more white-space characters, which the
      server refuses as missing. */
  lemma BlankPasswordReachesServer(usernameInput: string, passwordInput: string)
    requires 3 <= Utf16Length(Trim(usernameInput)) && 6 <= Utf16Length(passwordInput)
    requires IsNullOrWhiteSpace(passwordInput)
    ensures OnRegisterClicked(usernameInput, passwordInput).Submitted?
    ensures var s := OnRegisterClicked(usernameInput, passwordInput);
      CheckRegister(RegisterRequest(s.username, s.password)) == Some(RequiredMessage)
  {
  }

  /** The form sends a username whose trimmed length is over 50, which the server refuses
      as too long. */
  lemma LongUsernameReachesServer(usernameInput: string, passwordInput: string)
    requires Utf16Length(Trim(usernameInput)) > MaxUsernameLength && 6 <= Utf16Length(passwordInput)
    requires !IsNullOrWhiteSpace(passwordInput)
    ensures OnRegisterClicked(usernameInput, passwordInput).Submitted?
    ensures var s := OnRegisterClicked(usernameInput, passwordInput);
      CheckRegister(RegisterRequest(s.username, s.password)) == Some(UsernameLengthMessage)
  {
    TrimmedNotBlank(usernameInput);
  }

  /** The body of a successful login answer, as the client reads it. */
  datatype LoginAnswer = LoginAnswer(token: string, userId: int, username: string)

  /** The success branch of `LoginCoroutine`'s callback: the token and the user id go to
      the session holder, in the field and in the prefs store. */
  method OnLoginSucceeded(gs: GameState, answer: LoginAnswer)
    modifies gs`authToken, gs`userId, gs.prefs
    ensures gs.authToken == answer.token && gs.userId == answer.userId
    ensures gs.prefs.entries ==
      old(gs.prefs.entries)[AuthTokenKey := PrefString(answer.token)][UserIdKey := PrefInt(answer.userId)]
    ensures gs.SessionToken() == answer.token && gs.SessionUserId() == answer.userId
    ensures gs.prefs.GetString(AuthTokenKey, "") == answer.token
    ensures gs.prefs.GetInt(UserIdKey, 0) == answer.userId
  {
    gs.SetAuthToken(answer.token);
    gs.SetUserId(answer.userId);
  }
}
