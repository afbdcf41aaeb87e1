/**
 * The character endpoints of the identity service
 * (AuthServer/Controllers/CharactersController.cs). Every action first derives
 * the caller's user id from the `userId` claim of the validated token and
 * answers 401 without touching the store when there is none; every query is
 * scoped to that user.
 *
 * The read-only actions are functions of the stored characters; the actions
 * that change the store are methods on the database context.
 */
module Characters {
  import opened Base
  import opened Text
  import opened Decimal
  import opened AuthData

  const UserIdClaim := "userId"
  const MaxCharactersPerUser: nat := 3
  const MinNameLength: nat := 3
  const MaxNameLength: nat := 30
  const ValidRaces: seq<string> := ["Humano", "Elfo", "Orc"]
  const ValidClasses: seq<string> := ["Guerreiro", "Mago", "Arqueiro"]

  const InvalidTokenMessage := "Token inválido"
  const NotFoundMessage := "Personagem não encontrado"
  const NameLengthMessage := "Nome deve ter entre 3 e 30 caracteres"
  const InvalidRaceMessage := "Raça inválida. Escolha: Humano, Elfo ou Orc"
  const ClassRequiredMessage := "Classe é obrigatória"
  const InvalidClassMessage := "Classe inválida. Escolha: Guerreiro, Mago ou Arqueiro"
  const NameTakenMessage := "Nome de personagem já existe"
  const LimitMessage := "Limite de 3 personagens atingido"
  const CreatedMessage := "Personagem criado com sucesso"
  const PositionUpdatedMessage := "Posição atualizada"
  const DeletedMessage := "Personagem deletado com sucesso"

  /** `CreateCharacterRequest`: the class may arrive as `Class` (`requestClass`) or as
      `CharacterClass`; absent fields are empty. */
  datatype CreateCharacterRequest = CreateCharacterRequest(
    name: string, race: string, requestClass: string, characterClass: string)

  /** `UpdatePositionRequest`. */
  datatype UpdatePositionRequest = UpdatePositionRequest(x: real, y: real, z: real)

  /** A row of the character list: the record without owner and position. */
  datatype CharacterSummary = CharacterSummary(
    id: int, name: string, race: string, characterClass: string, createdAt: int, lastLoginAt: int)

  /** The body of a successful creation. */
  datatype Created = Created(
    message: string, characterId: int, name: string, race: string, characterClass: string)

  /** `GetUserIdFromToken`: the value of the first `userId` claim when it parses as a
      32-bit integer; nothing when the claim is missing or malformed. */
  function GetUserIdFromToken(claims: seq<Claim>): (r: Option<int>)
    ensures r.Some? ==> IsInt32(r.value)
    ensures FindClaim(claims, UserIdClaim).None? ==> r.None?
    ensures r.Some? ==> exists c :: c in claims && c.kind == UserIdClaim
    ensures r.Some? <==>
      FindClaim(claims, UserIdClaim).Some? && TryParseInt32(FindClaim(claims, UserIdClaim).value.value).Some?
    ensures r.Some? ==> r == TryParseInt32(claims[ClaimIndex(claims, UserIdClaim)].value)
  {
    match FindClaim(claims, UserIdClaim)
    case None => None
    case Some(claim) => TryParseInt32(claim.value)
  }

  /** `Where(c => c.UserId == userId)`: the characters of one user, in store order. */
  function OwnedBy(chars: seq<Character>, userId: int): (r: seq<Character>)
    ensures |r| <= |chars|
    ensures forall c :: c in r <==> c in chars && c.userId == userId
  {
    if chars == [] then []
    else (if chars[0].userId == userId then [chars[0]] else []) + OwnedBy(chars[1..], userId)
  }

  /** `CountAsync(c => c.UserId == userId)`. */
  function CountOwned(chars: seq<Character>, userId: int): nat {
    |OwnedBy(chars, userId)|
  }

  /** `FirstOrDefault(c => c.Id == id && c.UserId == userId)`, as a position in the store:
      the first character with that id that belongs to that user, or nothing when the
      user has no character with that id (whether or not another user has one). */
  function FindOwned(chars: seq<Character>, id: int, userId: int): (r: Option<nat>)
    ensures r.Some? ==> r.value < |chars| && chars[r.value].id == id && chars[r.value].userId == userId
    ensures r.Some? ==> forall j :: 0 <= j < r.value ==> !(chars[j].id == id && chars[j].userId == userId)
    ensures r.None? <==> forall c :: c in chars ==> !(c.id == id && c.userId == userId)
  {
    if chars == [] then None
    else if chars[0].id == id && chars[0].userId == userId then Some(0)
    else
      match FindOwned(chars[1..], id, userId)
      case None => None
      case Some(k) =>
        assert forall j :: 0 < j < k + 1 ==> chars[j] == chars[1..][j - 1];
        Some(k + 1)
  }

  function Summary(c: Character): CharacterSummary {
    CharacterSummary(c.id, c.name, c.race, c.characterClass, c.createdAt, c.lastLoginAt)
  }

  function Summaries(chars: seq<Character>): (r: seq<CharacterSummary>)
    ensures |r| == |chars|
    ensures forall i :: 0 <= i < |chars| ==> r[i] == Summary(chars[i])
  {
    if chars == [] then [] else [Summary(chars[0])] + Summaries(chars[1..])
  }

  /** `GET /api/characters`: 401 without a user id; otherwise the list holds exactly the
      summaries of the caller's characters, one per character. */
  function GetCharacters(chars: seq<Character>, claims: seq<Claim>): (r: ActionResult<seq<CharacterSummary>>)
    ensures GetUserIdFromToken(claims).None? ==> r == Unauthorized(InvalidTokenMessage)
    ensures GetUserIdFromToken(claims).Some? ==>
      var userId := GetUserIdFromToken(claims).value;
      && r.Ok? && |r.value| == CountOwned(chars, userId)
      && forall s :: s in r.value <==> exists c :: c in chars && c.userId == userId && s == Summary(c)
  {
    match GetUserIdFromToken(claims)
    case None => Unauthorized(InvalidTokenMessage)
    case Some(userId) =>
      var owned := OwnedBy(chars, userId);
      var list := Summaries(owned);
      assert forall s :: s in list <==> exists i :: 0 <= i < |owned| && s == Summary(owned[i]);
      Ok(list)
  }

  /** `GET /api/characters/{id}`: a character is returned only to its owner; another
      user's character and a missing one both give 404. */
  function GetCharacter(chars: seq<Character>, claims: seq<Claim>, id: int): (r: ActionResult<Character>)
    ensures GetUserIdFromToken(claims).None? ==> r == Unauthorized(InvalidTokenMessage)
    ensures r.Ok? ==> r.value in chars && r.value.id == id
                      && Some(r.value.userId) == GetUserIdFromToken(claims)
    ensures GetUserIdFromToken(claims).Some? ==>
      var userId := GetUserIdFromToken(claims).value;
      && (r.Ok? || r == NotFound(NotFoundMessage))
      && (r.Ok? <==> exists c :: c in chars && c.id == id && c.userId == userId)
  {
    match GetUserIdFromToken(claims)
    case None => Unauthorized(InvalidTokenMessage)
    case Some(userId) =>
      match FindOwned(chars, id, userId)
      case None => NotFound(NotFoundMessage)
      case Some(i) => Ok(chars[i])
  }

  /** The name test of `CreateCharacter`: not blank, and 3 to 30 UTF-16 code units long. */
  predicate NameAcceptable(name: string) {
    !IsNullOrWhiteSpace(name) && MinNameLength <= Utf16Length(name) <= MaxNameLength
  }

  /** A name of two characters outside the Basic Multilingual Plane is four UTF-16 code
      units long and passes the length test; one of sixteen such characters is 32 units
      long and fails it. */
  lemma SupplementaryNameLength()
    ensures NameAcceptable(seq(2, _ => '\U{1F600}'))
    ensures !NameAcceptable(seq(16, _ => '\U{1F600}'))
  {
    var two := seq(2, _ => '\U{1F600}');
    var sixteen := seq(16, _ => '\U{1F600}');
    assert IsSupplementary('\U{1F600}') && !IsWhiteSpace('\U{1F600}');
    assert forall i :: 0 <= i < |two| ==> IsSupplementary(two[i]);
    assert forall i :: 0 <= i < |sixteen| ==> IsSupplementary(sixteen[i]);
    assert !IsWhiteSpace(two[0]);
  }

  /** The class the request names: `Class` when non-empty, otherwise `CharacterClass`. */
  function ResolveClass(req: CreateCharacterRequest): string {
    if !IsNullOrEmpty(req.requestClass) then req.requestClass else req.characterClass
  }

  /** Some stored character already has this name, whoever owns it. */
  predicate NameTaken(chars: seq<Character>, name: string) {
    exists c :: c in chars && c.name == name
  }

  /** The validation chain of `CreateCharacter`, first failure wins: `Ok` with the resolved
      class when the request may be stored. */
  function CheckCreate(chars: seq<Character>, userId: int, req: CreateCharacterRequest): (r: ActionResult<string>)
    ensures r.Ok? <==>
      && NameAcceptable(req.name)
      && req.race in ValidRaces
      && ResolveClass(req) in ValidClasses
      && !NameTaken(chars, req.name)
      && CountOwned(chars, userId) < MaxCharactersPerUser
    ensures r.Ok? ==> r.value == ResolveClass(req)
    ensures r.BadRequest? || r.Conflict? || r.Ok?
  {
    if !NameAcceptable(req.name) then BadRequest(NameLengthMessage)
    else if req.race !in ValidRaces then BadRequest(InvalidRaceMessage)
    else
      var cls := ResolveClass(req);
      if IsNullOrEmpty(cls) then BadRequest(ClassRequiredMessage)
      else if cls !in ValidClasses then BadRequest(InvalidClassMessage)
      else if NameTaken(chars, req.name) then Conflict(NameTakenMessage)
      else if CountOwned(chars, userId) >= MaxCharactersPerUser then BadRequest(LimitMessage)
      else Ok(cls)
  }

  /** Which rejection a request gets: each message is reported exactly when its own test
      fails and every earlier test passes. */
  lemma CreateCheckOrder(chars: seq<Character>, userId: int, req: CreateCharacterRequest)
    ensures var r := CheckCreate(chars, userId, req);
      var cls := ResolveClass(req);
      && (r == BadRequest(NameLengthMessage) <==> !NameAcceptable(req.name))
      && (r == BadRequest(InvalidRaceMessage) <==> NameAcceptable(req.name) && req.race !in ValidRaces)
      && (r == BadRequest(ClassRequiredMessage) <==>
            NameAcceptable(req.name) && req.race in ValidRaces && cls == [])
      && (r == BadRequest(InvalidClassMessage) <==>
            NameAcceptable(req.name) && req.race in ValidRaces && cls != [] && cls !in ValidClasses)
      && (r == Conflict(NameTakenMessage) <==>
            NameAcceptable(req.name) && req.race in ValidRaces && cls in ValidClasses
            && NameTaken(chars, req.name))
      && (r == BadRequest(LimitMessage) <==>
            NameAcceptable(req.name) && req.race in ValidRaces && cls in ValidClasses
            && !NameTaken(chars, req.name) && CountOwned(chars, userId) >= MaxCharactersPerUser)
  {
    assert NameLengthMessage != InvalidRaceMessage && NameLengthMessage != ClassRequiredMessage;
    assert NameLengthMessage != InvalidClassMessage && NameLengthMessage != LimitMessage;
    assert InvalidRaceMessage != ClassRequiredMessage && InvalidRaceMessage != InvalidClassMessage;
    assert InvalidRaceMessage != LimitMessage && ClassRequiredMessage != InvalidClassMessage;
    assert ClassRequiredMessage != LimitMessage && InvalidClassMessage != LimitMessage;
    assert [] !in ValidClasses;
  }

  /** The rules the controller keeps for the character table (neither is a database
      constraint): names are unique across all users, and no user has more than three
      characters. */
  ghost predicate CharacterRules(chars: seq<Character>) {
    && (forall i, j :: 0 <= i < j < |chars| ==> chars[i].name != chars[j].name)
    && (forall u :: CountOwned(chars, u) <= MaxCharactersPerUser)
  }

  /** Filtering distributes over concatenation. */
  lemma {:induction false} OwnedByConcat(a: seq<Character>, b: seq<Character>, userId: int)
    ensures OwnedBy(a + b, userId) == OwnedBy(a, userId) + OwnedBy(b, userId)
    decreases |a|
  {
    if a == [] {
      assert a + b == b;
    } else {
      assert (a + b)[1..] == a[1..] + b;
      OwnedByConcat(a[1..], b, userId);
    }
  }

  /** A one-character store counts its character for its owner only. */
  lemma OwnedBySingle(c: Character, userId: int)
    ensures CountOwned([c], userId) == if c.userId == userId then 1 else 0
  {
    assert [c][1..] == [];
  }

  /** The record `CreateCharacter` stores: at the origin, created and last seen `now`. */
  function NewCharacter(id: int, userId: int, req: CreateCharacterRequest, cls: string, now: int): Character {
    Character(id, userId, req.name, req.race, cls, 0.0, 0.0, 0.0, now, now)
  }

  /** A character accepted by the validation chain keeps the table's rules. */
  lemma CreatePreservesRules(chars: seq<Character>, userId: int, req: CreateCharacterRequest, id: int, now: int)
    requires CharacterRules(chars)
    requires CheckCreate(chars, userId, req).Ok?
    ensures CharacterRules(chars + [NewCharacter(id, userId, req, ResolveClass(req), now)])
  {
    var c := NewCharacter(id, userId, req, ResolveClass(req), now);
    var chars' := chars + [c];
    forall i, j | 0 <= i < j < |chars'|
      ensures chars'[i].name != chars'[j].name
    {
      if j == |chars| {
        assert chars'[i] in chars;
      }
    }
    forall u
      ensures CountOwned(chars', u) <= MaxCharactersPerUser
    {
      OwnedByConcat(chars, [c], u);
      OwnedBySingle(c, u);
      assert CountOwned(chars', u) == CountOwned(chars, u) + CountOwned([c], u);
      assert CountOwned(chars, u) <= MaxCharactersPerUser;
      if u == userId {
        assert CountOwned(chars, u) < MaxCharactersPerUser;
      }
    }
  }

  /** Removing one character keeps the table's rules. */
  lemma RemovePreservesRules(chars: seq<Character>, i: nat)
    requires i < |chars|
    requires CharacterRules(chars)
    ensures CharacterRules(chars[..i] + chars[i + 1..])
  {
    var chars' := chars[..i] + chars[i + 1..];
    forall u
      ensures CountOwned(chars', u) <= MaxCharactersPerUser
    {
      assert chars == chars[..i] + [chars[i]] + chars[i + 1..];
      OwnedByConcat(chars[..i] + [chars[i]], chars[i + 1..], u);
      OwnedByConcat(chars[..i], [chars[i]], u);
      OwnedByConcat(chars[..i], chars[i + 1..], u);
      OwnedBySingle(chars[i], u);
      assert CountOwned(chars', u) <= CountOwned(chars, u) <= MaxCharactersPerUser;
    }
    forall a, b | 0 <= a < b < |chars'|
      ensures chars'[a].name != chars'[b].name
    {
      var a' := if a < i then a else a + 1;
      var b' := if b < i then b else b + 1;
      assert chars'[a] == chars[a'] && chars'[b] == chars[b'];
    }
  }

  /** Replacing a character by one with the same owner and name keeps the table's rules. */
  lemma ReplacePreservesRules(chars: seq<Character>, i: nat, c: Character)
    requires i < |chars|
    requires CharacterRules(chars)
    requires c.userId == chars[i].userId && c.name == chars[i].name
    ensures CharacterRules(chars[i := c])
  {
    var chars' := chars[i := c];
    forall u
      ensures CountOwned(chars', u) <= MaxCharactersPerUser
    {
      assert chars == chars[..i] + [chars[i]] + chars[i + 1..];
      assert chars' == chars[..i] + [c] + chars[i + 1..];
      OwnedByConcat(chars[..i] + [chars[i]], chars[i + 1..], u);
      OwnedByConcat(chars[..i], [chars[i]], u);
      OwnedByConcat(chars[..i] + [c], chars[i + 1..], u);
      OwnedByConcat(chars[..i], [c], u);
      OwnedBySingle(chars[i], u);
      OwnedBySingle(c, u);
      assert CountOwned(chars', u) == CountOwned(chars, u) <= MaxCharactersPerUser;
    }
  }

  /** With unique keys, removing the row at `i` removes exactly the row with its key. */
  lemma RemoveByKey(chars: seq<Character>, nextId: int, i: nat)
    requires CharacterKeys(chars, nextId) && i < |chars|
    ensures var chars' := chars[..i] + chars[i + 1..];
      && (forall c :: c in chars' ==> c in chars && c.id != chars[i].id)
      && (forall c :: c in chars && c.id != chars[i].id ==> c in chars')
  {
    var chars' := chars[..i] + chars[i + 1..];
    forall c | c in chars'
      ensures c in chars && c.id != chars[i].id
    {
      var k :| 0 <= k < |chars'| && chars'[k] == c;
      var k' := if k < i then k else k + 1;
      assert chars[k'] == c && k' != i;
    }
    forall c | c in chars && c.id != chars[i].id
      ensures c in chars'
    {
      var k :| 0 <= k < |chars| && chars[k] == c;
      if k < i {
        assert chars'[k] == c;
      } else {
        assert chars'[k - 1] == c;
      }
    }
  }

  /** `POST /api/characters`: 401 without a user id, the first failed check of the chain
      otherwise, and on success one new character appended to the store under the next
      id, owned by the caller, with the resolved class. The table's rules are kept. */
  method CreateCharacter(db: AppDbContext, claims: seq<Claim>, req: CreateCharacterRequest, now: int)
    returns (r: ActionResult<Created>)
    requires db.Valid() && CharacterRules(db.characters)
    modifies db`characters, db`nextCharacterId
    ensures db.Valid() && CharacterRules(db.characters)
    ensures GetUserIdFromToken(claims).None? ==>
      r == Unauthorized(InvalidTokenMessage) && unchanged(db)
    ensures GetUserIdFromToken(claims).Some? ==>
      var userId := GetUserIdFromToken(claims).value;
      var check := CheckCreate(old(db.characters), userId, req);
      && (!check.Ok? ==> !r.Ok? && r.message == check.message
                         && r.Conflict? == check.Conflict? && unchanged(db))
      && (check.Ok? ==>
            var id := old(db.nextCharacterId);
            && db.characters == old(db.characters) + [NewCharacter(id, userId, req, check.value, now)]
            && db.nextCharacterId == id + 1
            && r == Ok(Created(CreatedMessage, id, req.name, req.race, check.value)))
  {
    var userIdOpt := GetUserIdFromToken(claims);
    if userIdOpt.None? {
      return Unauthorized(InvalidTokenMessage);
    }
    var userId := userIdOpt.value;
    var check := CheckCreate(db.characters, userId, req);
    match check {
      case BadRequest(message) => return BadRequest(message);
      case Conflict(message) => return Conflict(message);
      case Ok(cls) =>
        CreatePreservesRules(db.characters, userId, req, db.nextCharacterId, now);
        var id := db.nextCharacterId;
        CharacterKeysAppend(db.characters, id, NewCharacter(id, userId, req, cls, now));
        db.characters := db.characters + [NewCharacter(id, userId, req, cls, now)];
        db.nextCharacterId := id + 1;
        return Ok(Created(CreatedMessage, id, req.name, req.race, cls));
    }
  }

  /** `PUT /api/characters/{id}/position`: only the caller's own character is touched; its
      position becomes the requested one and its last-seen time `now`; nothing else in
      the store changes. */
  method UpdatePosition(db: AppDbContext, claims: seq<Claim>, id: int, req: UpdatePositionRequest, now: int)
    returns (r: ActionResult<string>)
    requires db.Valid() && CharacterRules(db.characters)
    modifies db`characters
    ensures db.Valid() && CharacterRules(db.characters)
    ensures GetUserIdFromToken(claims).None? ==>
      r == Unauthorized(InvalidTokenMessage) && unchanged(db)
    ensures GetUserIdFromToken(claims).Some? ==>
      var found := FindOwned(old(db.characters), id, GetUserIdFromToken(claims).value);
      && (found.None? ==> r == NotFound(NotFoundMessage) && unchanged(db))
      && (found.Some? ==>
            var c := old(db.characters)[found.value];
            && r == Ok(PositionUpdatedMessage)
            && db.characters == old(db.characters)[found.value :=
                 c.(positionX := req.x, positionY := req.y, positionZ := req.z, lastLoginAt := now)])
  {
    var userIdOpt := GetUserIdFromToken(claims);
    if userIdOpt.None? {
      return Unauthorized(InvalidTokenMessage);
    }
    var found := FindOwned(db.characters, id, userIdOpt.value);
    if found.None? {
      return NotFound(NotFoundMessage);
    }
    var i := found.value;
    var c := db.characters[i];
    var c' := c.(positionX := req.x, positionY := req.y, positionZ := req.z, lastLoginAt := now);
    ReplacePreservesRules(db.characters, i, c');
    db.characters := db.characters[i := c'];
    return Ok(PositionUpdatedMessage);
  }

  /** `DELETE /api/characters/{id}`: only the caller's own character is removed; afterwards
      no character has that id and every other character is still stored. */
  method DeleteCharacter(db: AppDbContext, claims: seq<Claim>, id: int)
    returns (r: ActionResult<string>)
    requires db.Valid() && CharacterRules(db.characters)
    modifies db`characters
    ensures db.Valid() && CharacterRules(db.characters)
    ensures GetUserIdFromToken(claims).None? ==>
      r == Unauthorized(InvalidTokenMessage) && unchanged(db)
    ensures GetUserIdFromToken(claims).Some? ==>
      var userId := GetUserIdFromToken(claims).value;
      && (r.Ok? <==> exists c :: c in old(db.characters) && c.id == id && c.userId == userId)
      && (!r.Ok? ==> r == NotFound(NotFoundMessage) && unchanged(db))
      && (r.Ok? ==> r.value == DeletedMessage
                    && |db.characters| == |old(db.characters)| - 1
                    && (forall c :: c in db.characters ==> c.id != id)
                    && (forall c :: c in old(db.characters) && c.id != id ==> c in db.characters)
                    && (forall c :: c in db.characters ==> c in old(db.characters)))
  {
    var userIdOpt := GetUserIdFromToken(claims);
    if userIdOpt.None? {
      return Unauthorized(InvalidTokenMessage);
    }
    var found := FindOwned(db.characters, id, userIdOpt.value);
    if found.None? {
      return NotFound(NotFoundMessage);
    }
    var i := found.value;
    var chars := db.characters;
    var chars' := chars[..i] + chars[i + 1..];
    RemovePreservesRules(chars, i);
    CharacterKeysRemove(chars, db.nextCharacterId, i);
    RemoveByKey(chars, db.nextCharacterId, i);
    db.characters := chars';
    return Ok(DeletedMessage);
  }
}
