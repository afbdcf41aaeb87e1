/**
 * The identity service's data (AuthServer/Data): the user and character
 * entities, the database context holding both tables, the claims a request
 * carries, and the results a controller action returns.
 */
module AuthData {
  import opened Base

  /** `User`; `createdAt` is a timestamp in seconds. */
  datatype User = User(id: int, username: string, passwordHash: string, createdAt: int)

  /** `Character` (its C# property `Class` is `characterClass` here). */
  datatype Character = Character(
    id: int,
    userId: int,
    name: string,
    race: string,
    characterClass: string,
    positionX: real,
    positionY: real,
    positionZ: real,
    createdAt: int,
    lastLoginAt: int)

  /** A claim of a validated token: its type and its string value. */
  datatype Claim = Claim(kind: string, value: string)

  /** What an action returns: `Ok` with its body, or an error status with its message.
      `ServerError` is status 500, explicit or from an unhandled exception. */
  datatype ActionResult<+T> =
    | Ok(value: T)
    | BadRequest(message: string)
    | Unauthorized(message: string)
    | NotFound(message: string)
    | Conflict(message: string)
    | ServerError(message: string)

  /** The position of the first claim of type `kind`, or `|claims|` when there is none. */
  function ClaimIndex(claims: seq<Claim>, kind: string): (i: nat)
    ensures i <= |claims|
    ensures forall j :: 0 <= j < i ==> claims[j].kind != kind
    ensures i < |claims| ==> claims[i].kind == kind
  {
    if claims == [] then 0
    else if claims[0].kind == kind then 0
    else
      var rest := ClaimIndex(claims[1..], kind);
      assert forall j :: 0 < j < rest + 1 ==> claims[j] == claims[1..][j - 1];
      rest + 1
  }

  /** `FirstOrDefault(c => c.Type == kind)`: the first claim of that type, or nothing
      when no claim has it. */
  function FindClaim(claims: seq<Claim>, kind: string): (r: Option<Claim>)
    ensures r.Some? ==> r.value in claims && r.value.kind == kind
    ensures r.None? <==> forall c :: c in claims ==> c.kind != kind
    ensures r.Some? ==> r.value == claims[ClaimIndex(claims, kind)]
  {
    var i := ClaimIndex(claims, kind);
    if i < |claims| then Some(claims[i]) else None
  }

  /** User keys are positive, below the next identity value, and unique; so are
      usernames (the unique index on `Username`). */
  ghost predicate UserKeys(users: seq<User>, nextId: int) {
    && (forall i :: 0 <= i < |users| ==> 1 <= users[i].id < nextId)
    && (forall i, j :: 0 <= i < j < |users| ==> users[i].id != users[j].id)
    && (forall i, j :: 0 <= i < j < |users| ==> users[i].username != users[j].username)
  }

  /** A row keyed with the next identity value, under a username not yet stored, keeps
      the keys valid, with the identity value advanced. */
  lemma UserKeysAppend(users: seq<User>, nextId: int, u: User)
    requires UserKeys(users, nextId) && u.id == nextId && 1 <= nextId
    requires forall v :: v in users ==> v.username != u.username
    ensures UserKeys(users + [u], nextId + 1)
  {
    var users' := users + [u];
    forall i, j | 0 <= i < j < |users'|
      ensures users'[i].username != users'[j].username
    {
      if j == |users| {
        assert users'[i] in users;
      }
    }
  }

  /** Character keys are positive, below the next identity value, and unique. */
  ghost predicate CharacterKeys(chars: seq<Character>, nextId: int) {
    && (forall i :: 0 <= i < |chars| ==> 1 <= chars[i].id < nextId)
    && (forall i, j :: 0 <= i < j < |chars| ==> chars[i].id != chars[j].id)
  }

  /** A row keyed with the next identity value keeps the keys valid, with the identity
      value advanced. */
  lemma CharacterKeysAppend(chars: seq<Character>, nextId: int, c: Character)
    requires CharacterKeys(chars, nextId) && c.id == nextId && 1 <= nextId
    ensures CharacterKeys(chars + [c], nextId + 1)
  {
  }

  /** Removing a row keeps the keys valid. */
  lemma CharacterKeysRemove(chars: seq<Character>, nextId: int, i: nat)
    requires CharacterKeys(chars, nextId) && i < |chars|
    ensures CharacterKeys(chars[..i] + chars[i + 1..], nextId)
  {
    var chars' := chars[..i] + chars[i + 1..];
    forall a, b | 0 <= a < b < |chars'|
      ensures chars'[a].id != chars'[b].id
    {
      var a' := if a < i then a else a + 1;
      var b' := if b < i then b else b + 1;
      assert chars'[a] == chars[a'] && chars'[b] == chars[b'];
    }
  }

  /** `AppDbContext`: the `Users` and `Characters` tables, and the identity values the
      database will assign to the next rows. */
  class AppDbContext {
    var users: seq<User>
    var characters: seq<Character>
    var nextUserId: int
    var nextCharacterId: int

    /** Keys are positive, below the next identity value and unique; usernames are
        unique (the unique index on `Username`). */
    ghost predicate Valid()
      reads this
    {
      && 1 <= nextUserId && 1 <= nextCharacterId
      && UserKeys(users, nextUserId)
      && CharacterKeys(characters, nextCharacterId)
    }

    /** An empty database. */
    constructor ()
      ensures Valid() && users == [] && characters == []
      ensures nextUserId == 1 && nextCharacterId == 1
    {
      users, characters := [], [];
      nextUserId, nextCharacterId := 1, 1;
    }
  }
}
