/**
 * The client's character-creation form (Scripts/UI/CharacterCreateUI.cs): the
 * race and class options, and the checks `OnCreateClicked` makes before it
 * sends a creation request to the identity service.
 */
module CharacterCreation {
  import opened Text
  import opened AuthData
  import opened Characters

  /** The dropdown options, in order. */
  const Races: seq<string> := ["Humano", "Elfo", "Orc"]
  const Classes: seq<string> := ["Guerreiro", "Mago", "Arqueiro"]

  const EmptyNameMessage := "Digite um nome para o personagem!"
  const NameLengthStatus := "Nome deve ter entre 3 e 30 caracteres!"
  const NameCharactersMessage := "Nome deve conter apenas letras e números!"

  /** What a click on "create" does: the array lookups throw for an index outside the
      options, before any check; a failed check shows its message and sends nothing;
      otherwise the request is sent with the trimmed name. */
  datatype CreateOutcome =
    | IndexOutOfRange
    | Rejected(message: string)
    | Submitted(name: string, race: string, characterClass: string)

  predicate IsAsciiAlphanumeric(c: char) {
    'a' <= c <= 'z' || 'A' <= c <= 'Z' || '0' <= c <= '9'
  }

  predicate AllAsciiAlphanumeric(s: string) {
    forall i :: 0 <= i < |s| ==> IsAsciiAlphanumeric(s[i])
  }

  /** `Regex.IsMatch(s, "^[a-zA-Z0-9]+$")`: one or more ASCII letters or digits, where `$`
      also matches just before a final line feed. */
  predicate MatchesNamePattern(s: string) {
    || (s != [] && AllAsciiAlphanumeric(s))
    || (|s| >= 2 && s[|s| - 1] == '\n' && AllAsciiAlphanumeric(s[..|s| - 1]))
  }

  /** `OnCreateClicked`, from the name field's text and the two dropdown indices: each
      outcome exactly when its own test fails and the earlier ones pass. Lengths are
      `string.Length`, in UTF-16 code units. */
  function OnCreateClicked(nameInput: string, raceIndex: int, classIndex: int): (r: CreateOutcome)
    ensures r.IndexOutOfRange? <==> !(0 <= raceIndex < |Races|) || !(0 <= classIndex < |Classes|)
    ensures r == Rejected(EmptyNameMessage) <==>
      0 <= raceIndex < |Races| && 0 <= classIndex < |Classes| && Trim(nameInput) == []
    ensures r == Rejected(NameLengthStatus) <==>
      && 0 <= raceIndex < |Races| && 0 <= classIndex < |Classes| && Trim(nameInput) != []
      && !(3 <= Utf16Length(Trim(nameInput)) <= 30)
    ensures r == Rejected(NameCharactersMessage) <==>
      && 0 <= raceIndex < |Races| && 0 <= classIndex < |Classes|
      && 3 <= Utf16Length(Trim(nameInput)) <= 30 && !AllAsciiAlphanumeric(Trim(nameInput))
    ensures r.Submitted? <==>
      && 0 <= raceIndex < |Races| && 0 <= classIndex < |Classes|
      && 3 <= Utf16Length(Trim(nameInput)) <= 30 && AllAsciiAlphanumeric(Trim(nameInput))
    ensures r.Submitted? ==>
      && r.name == Trim(nameInput) && |r.name| == Utf16Length(r.name)
      && r.race == Races[raceIndex] && r.characterClass == Classes[classIndex]
  {
    var name := Trim(nameInput);
    if !(0 <= raceIndex < |Races|) || !(0 <= classIndex < |Classes|) then IndexOutOfRange
    else if IsNullOrEmpty(name) then Rejected(EmptyNameMessage)
    else if Utf16Length(name) < 3 || Utf16Length(name) > 30 then Rejected(NameLengthStatus)
    else if !MatchesNamePattern(name) then
      assert !AllAsciiAlphanumeric(name);
      Rejected(NameCharactersMessage)
    else
      assert AllAsciiAlphanumeric(name) by {
        assert IsWhiteSpace('\n');
      }
      Submitted(name, Races[raceIndex], Classes[classIndex])
  }

  /** On a trimmed name the pattern's final-line-feed case cannot arise: the name matches
      exactly when it is a non-empty run of ASCII letters and digits. */
  lemma TrimmedNamePattern(nameInput: string)
    ensures var name := Trim(nameInput);
      MatchesNamePattern(name) <==> name != [] && AllAsciiAlphanumeric(name)
  {
    assert IsWhiteSpace('\n');
  }

  /** The form offers exactly the races and classes the server accepts. */
  lemma OptionsMatchServer()
    ensures forall r :: r in Races <==> r in ValidRaces
    ensures forall c :: c in Classes <==> c in ValidClasses
  {
  }

  /** A request the form sends (the class travels as `characterClass`, `Class` left empty)
      passes the server's name, race and class checks, so the server can refuse it only
      for a taken name or the per-user limit. */
  lemma SubmittedPassesServerChecks(nameInput: string, raceIndex: int, classIndex: int,
                                    chars: seq<Character>, userId: int)
    requires OnCreateClicked(nameInput, raceIndex, classIndex).Submitted?
    ensures var s := OnCreateClicked(nameInput, raceIndex, classIndex);
      var req := CreateCharacterRequest(s.name, s.race, "", s.characterClass);
      && NameAcceptable(req.name)
      && req.race in ValidRaces
      && ResolveClass(req) in ValidClasses
      && (CheckCreate(chars, userId, req).Ok? <==>
            !NameTaken(chars, req.name) && CountOwned(chars, userId) < MaxCharactersPerUser)
  {
    var s := OnCreateClicked(nameInput, raceIndex, classIndex);
    assert s.name != [] && !IsWhiteSpace(s.name[0]);
    assert !IsNullOrWhiteSpace(s.name);
  }
}
