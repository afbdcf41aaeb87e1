/**
 * The client's session holder (Scripts/Utils/GameState.cs): the auth token and
 * user id, kept both in fields and in Unity's `PlayerPrefs` store, the selected
 * character, the local player and the connection flags.
 *
 * A null token is the empty string here; `PlayerPrefs.Save` (the flush to disk)
 * does not change what the store holds and is not modelled.
 */
module Session {
  import opened Base
  import opened NetworkPlayers

  const AuthTokenKey := "AuthToken"
  const UserIdKey := "UserId"

  /** A `PlayerPrefs` entry: each key holds a string or an integer. */
  datatype PrefValue = PrefString(s: string) | PrefInt(i: int)

  /** Unity's `PlayerPrefs` key/value store. */
  class PlayerPrefs {
    var entries: map<string, PrefValue>

    constructor (entries: map<string, PrefValue>)
      ensures this.entries == entries
    {
      this.entries := entries;
    }

    method SetString(key: string, value: string)
      modifies this
      ensures entries == old(entries)[key := PrefString(value)]
    {
      entries := entries[key := PrefString(value)];
    }

    method SetInt(key: string, value: int)
      modifies this
      ensures entries == old(entries)[key := PrefInt(value)]
    {
      entries := entries[key := PrefInt(value)];
    }

    method DeleteKey(key: string)
      modifies this
      ensures entries == old(entries) - {key}
    {
      entries := entries - {key};
    }

    /** `GetString(key, fallback)`: the stored string, or `fallback` when the key is
        missing or holds an integer. */
    function GetString(key: string, fallback: string): (r: string)
      reads this
      ensures key !in entries ==> r == fallback
      ensures key in entries && entries[key].PrefString? ==> r == entries[key].s
    {
      if key in entries && entries[key].PrefString? then entries[key].s else fallback
    }

    /** `GetInt(key, fallback)`: the stored integer, or `fallback` when the key is missing
        or holds a string. */
    function GetInt(key: string, fallback: int): (r: int)
      reads this
      ensures key !in entries ==> r == fallback
      ensures key in entries && entries[key].PrefInt? ==> r == entries[key].i
    {
      if key in entries && entries[key].PrefInt? then entries[key].i else fallback
    }
  }

  class GameState {
    var authToken: string
    var userId: int
    var selectedCharacterId: int
    var currentCharacterData: Option<CharacterData>
    var localPlayer: NetworkPlayer?
    var isConnectedToServer: bool
    var isAuthenticated: bool
    const prefs: PlayerPrefs

    /** The token `GetAuthToken` answers with: the field when non-empty, otherwise what
        the prefs store holds under `AuthToken`, or empty. */
    function SessionToken(): string
      reads this, prefs
    {
      if authToken != "" then authToken else prefs.GetString(AuthTokenKey, "")
    }

    /** The user id `GetUserId` answers with: the field when non-zero, otherwise what the
        prefs store holds under `UserId`, or 0. */
    function SessionUserId(): int
      reads this, prefs
    {
      if userId != 0 then userId else prefs.GetInt(UserIdKey, 0)
    }

    /** A fresh holder over an existing prefs store: every field at its default, so the
        token and user id of an earlier session are still found through the store. */
    constructor (prefs: PlayerPrefs)
      ensures this.prefs == prefs
      ensures authToken == "" && userId == 0 && selectedCharacterId == 0
      ensures currentCharacterData == None && localPlayer == null
      ensures !isConnectedToServer && !isAuthenticated
      ensures SessionToken() == prefs.GetString(AuthTokenKey, "")
      ensures SessionUserId() == prefs.GetInt(UserIdKey, 0)
    {
      this.prefs := prefs;
      authToken, userId, selectedCharacterId := "", 0, 0;
      currentCharacterData, localPlayer := None, null;
      isConnectedToServer, isAuthenticated := false, false;
    }

    /** `SetAuthToken`: the token is kept in the field and in the store, so the session
        presents it from now on. */
    method SetAuthToken(token: string)
      modifies this`authToken, prefs
      ensures authToken == token
      ensures prefs.entries == old(prefs.entries)[AuthTokenKey := PrefString(token)]
      ensures SessionToken() == token
    {
      authToken := token;
      prefs.SetString(AuthTokenKey, token);
    }

    /** `GetAuthToken`: answers the session token and caches it in the field; what the
        session presents does not change. */
    method GetAuthToken() returns (token: string)
      modifies this`authToken
      ensures token == old(SessionToken()) && SessionToken() == token
      ensures authToken == token
    {
      if authToken == "" {
        authToken := prefs.GetString(AuthTokenKey, "");
      }
      token := authToken;
    }

    /** `SetUserId`: the id is kept in the field and in the store. */
    method SetUserId(id: int)
      modifies this`userId, prefs
      ensures userId == id
      ensures prefs.entries == old(prefs.entries)[UserIdKey := PrefInt(id)]
      ensures SessionUserId() == id
    {
      userId := id;
      prefs.SetInt(UserIdKey, id);
    }

    /** `GetUserId`: answers the session user id and caches it in the field. */
    method GetUserId() returns (id: int)
      modifies this`userId
      ensures id == old(SessionUserId()) && SessionUserId() == id
      ensures userId == id
    {
      if userId == 0 {
        userId := prefs.GetInt(UserIdKey, 0);
      }
      id := userId;
    }

    method SetSelectedCharacterId(id: int)
      modifies this`selectedCharacterId
      ensures selectedCharacterId == id && GetSelectedCharacterId() == id
    {
      selectedCharacterId := id;
    }

    function GetSelectedCharacterId(): int
      reads this
    {
      selectedCharacterId
    }

    method SetCharacterData(data: Option<CharacterData>)
      modifies this`currentCharacterData
      ensures currentCharacterData == data && GetCharacterData() == data
    {
      currentCharacterData := data;
    }

    function GetCharacterData(): Option<CharacterData>
      reads this
    {
      currentCharacterData
    }

    /** `ClearAuthData`: the session forgets its identity, in the fields and in the store
        (the other prefs entries stay); the local player and the connection flag are kept. */
    method ClearAuthData()
      modifies this`authToken, this`userId, this`selectedCharacterId
      modifies this`currentCharacterData, this`isAuthenticated, prefs
      ensures authToken == "" && userId == 0 && selectedCharacterId == 0
      ensures currentCharacterData == None && !isAuthenticated
      ensures prefs.entries == old(prefs.entries) - {AuthTokenKey, UserIdKey}
      ensures SessionToken() == "" && SessionUserId() == 0
      ensures localPlayer == old(localPlayer) && isConnectedToServer == old(isConnectedToServer)
    {
      authToken := "";
      userId := 0;
      selectedCharacterId := 0;
      currentCharacterData := None;
      isAuthenticated := false;
      prefs.DeleteKey(AuthTokenKey);
      prefs.DeleteKey(UserIdKey);
    }

    method SetLocalPlayer(player: NetworkPlayer)
      modifies this`localPlayer
      ensures localPlayer == player
    {
      localPlayer := player;
    }

    function GetLocalPlayer(): NetworkPlayer?
      reads this
    {
      localPlayer
    }

    method ClearLocalPlayer()
      modifies this`localPlayer
      ensures localPlayer == null
    {
      localPlayer := null;
    }

    method OnAuthenticationSuccess()
      modifies this`isAuthenticated
      ensures IsAuthenticated()
    {
      isAuthenticated := true;
    }

    /** `OnAuthenticationFailed`: the reason is only logged. */
    method OnAuthenticationFailed(reason: string)
      modifies this`isAuthenticated
      ensures !IsAuthenticated()
    {
      isAuthenticated := false;
    }

    function IsAuthenticated(): bool
      reads this
    {
      isAuthenticated
    }

    method SetConnectedToServer(connected: bool)
      modifies this`isConnectedToServer
      ensures IsConnectedToServer() == connected
    {
      isConnectedToServer := connected;
    }

    function IsConnectedToServer(): bool
      reads this
    {
      isConnectedToServer
    }
  }

  /** A token set and then read back is the token set, and it is in the store too. */
  method SetThenGetToken(gs: GameState, token: string) returns (read: string)
    modifies gs, gs.prefs
    ensures read == token
    ensures gs.prefs.GetString(AuthTokenKey, "") == token
  {
    gs.SetAuthToken(token);
    read := gs.GetAuthToken();
  }
}
