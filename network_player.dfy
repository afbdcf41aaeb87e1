/**
 * The replicated player entity (Scripts/Networking/NetworkPlayer.cs): the
 * character data copied in at spawn, and the movement state whose changes the
 * server broadcasts to every observer with `RpcUpdateState`.
 *
 * Mirror's RPC is modelled as an event log: `rpcLog` holds, oldest first, the
 * states the server copy has broadcast. An observer's copy applies them with
 * `RpcUpdateState`; `Replay` is what an observer holds after applying a log.
 */
module NetworkPlayers {

  /** `PlayerStateType`. */
  datatype PlayerStateType = Idle | Moving | Dead

  /** `CharacterData`, the character record the identity service returns. */
  datatype CharacterData = CharacterData(
    id: int,
    name: string,
    race: string,
    characterClass: string,
    positionX: real,
    positionY: real,
    positionZ: real)

  /** No broadcast repeats the state in force before it (`initial` before the first). */
  ghost predicate NoRepeatedState(initial: PlayerStateType, log: seq<PlayerStateType>) {
    && (log != [] ==> log[0] != initial)
    && forall i :: 0 < i < |log| ==> log[i] != log[i - 1]
  }

  /** Broadcasting a state other than the one in force keeps the log free of repeats. */
  lemma NoRepeatedStateAppend(initial: PlayerStateType, log: seq<PlayerStateType>, next: PlayerStateType)
    requires NoRepeatedState(initial, log)
    requires next != if log == [] then initial else log[|log| - 1]
    ensures NoRepeatedState(initial, log + [next])
  {
    var log' := log + [next];
    forall i | 0 < i < |log'|
      ensures log'[i] != log'[i - 1]
    {
      if i < |log| {
        assert log'[i] == log[i] && log'[i - 1] == log[i - 1];
      }
    }
  }

  /** The state an observer holds after applying the broadcasts of `log` in order,
      starting from `s`. */
  function Replay(s: PlayerStateType, log: seq<PlayerStateType>): PlayerStateType
    decreases |log|
  {
    if log == [] then s else Replay(log[0], log[1..])
  }

  /** An observer that applies every broadcast in order ends at the last one broadcast,
      whatever it held before: a late or repeated application of the same log converges. */
  lemma {:induction false} ReplayIsLast(s: PlayerStateType, log: seq<PlayerStateType>)
    ensures Replay(s, log) == if log == [] then s else log[|log| - 1]
    decreases |log|
  {
    if log != [] {
      ReplayIsLast(log[0], log[1..]);
    }
  }

  class NetworkPlayer {
    var characterName: string
    var race: string
    var characterClass: string
    var characterId: int
    var currentState: PlayerStateType
    /** The `RpcUpdateState` calls this server copy has made, oldest first. */
    var rpcLog: seq<PlayerStateType>

    /** The server copy's broadcasts never repeat a state, and an observer that has
        applied them all holds `currentState`. */
    ghost predicate Valid()
      reads this
    {
      && NoRepeatedState(Idle, rpcLog)
      && currentState == Replay(Idle, rpcLog)
    }

    /** A fresh entity: default SyncVars, state `Idle`, nothing broadcast yet. */
    constructor ()
      ensures Valid()
      ensures currentState == Idle && rpcLog == []
      ensures characterId == 0 && characterName == "" && race == "" && characterClass == ""
    {
      characterName, race, characterClass, characterId := "", "", "", 0;
      currentState := Idle;
      rpcLog := [];
    }

    /** `SetCharacterData`: copies id, name, race and class; no other field changes. */
    method SetCharacterData(data: CharacterData)
      modifies this`characterId, this`characterName, this`race, this`characterClass
      ensures characterId == data.id && characterName == data.name
      ensures race == data.race && characterClass == data.characterClass
    {
      characterId := data.id;
      characterName := data.name;
      race := data.race;
      characterClass := data.characterClass;
    }

    /** `SetState`: a change of state is applied and broadcast exactly once; setting the
        current state again changes nothing and broadcasts nothing. */
    method SetState(newState: PlayerStateType)
      requires Valid()
      modifies this`currentState, this`rpcLog
      ensures Valid()
      ensures old(currentState) == newState ==> currentState == newState && rpcLog == old(rpcLog)
      ensures old(currentState) != newState ==> currentState == newState && rpcLog == old(rpcLog) + [newState]
    {
      ReplayIsLast(Idle, rpcLog);
      if currentState != newState {
        NoRepeatedStateAppend(Idle, rpcLog, newState);
        currentState := newState;
        rpcLog := rpcLog + [newState];
        ReplayIsLast(Idle, rpcLog);
      }
    }

    /** `RpcUpdateState`, run on an observer's copy: it takes the broadcast state. */
    method RpcUpdateState(newState: PlayerStateType)
      modifies this`currentState
      ensures currentState == newState && GetState() == newState
    {
      currentState := newState;
    }

    /** `GetState`. */
    function GetState(): PlayerStateType
      reads this
    {
      currentState
    }
  }
}
