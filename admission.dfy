/**
 * The game server's admission of connections (Scripts/Networking/MMO_NetworkManager.cs):
 * a connection must present a token and a character id; the identity service
 * is asked about both, and only then is a player spawned for it. A connection
 * that has no player 30 seconds after it connected is dropped.
 *
 * Mirror's sends, player additions and disconnections are appended to an event
 * log. The coroutines and `Invoke` become explicit timers that fire when the
 * server's clock (milliseconds) has reached them, and a verification in flight
 * is completed by `CompleteVerification` with the identity service's answers.
 * `GetStartPosition` is a parameter (it may pick a start point at random).
 */
module Admission {
  import opened Base
  import opened NetworkPlayers
  import opened ServerAuth
  import opened Session

  const AuthTimeoutMs: int := 30000
  const RejectDisconnectDelayMs: int := 1000
  const AcceptedMessage := "Autenticação bem-sucedida"
  const RejectedMessage := "Token ou personagem inválido"

  /** `AuthenticationRequest`. */
  datatype AuthenticationRequest = AuthenticationRequest(token: string, characterId: int)

  /** `AuthenticationResponse`. */
  datatype AuthenticationResponse = AuthenticationResponse(success: bool, message: string)

  /** `PendingAuthData`. */
  datatype PendingAuthData = PendingAuthData(token: string, characterId: int, timestamp: real)

  /** A connection as the server sees it: open or closed, and the player it owns, if any
      (`conn.identity`). */
  datatype ConnState = ConnState(open: bool, identity: Option<NetworkPlayer>)

  /** What the server does to the outside world, in order. */
  datatype Event =
    | Sent(conn: int, response: AuthenticationResponse)
    | PlayerAdded(conn: int, character: CharacterData, position: Vec3)
    | Disconnected(conn: int)

  /** A pending timed callback: the 30-second admission check started on connect, or the
      delayed disconnect after a rejection. `due` is in milliseconds. */
  datatype Timer =
    | AuthTimeout(conn: int, due: int)
    | DelayedDisconnect(conn: int, due: int)

  /** A verification in flight: the coroutine started for one `AuthenticationRequest`. */
  datatype Verification = Verification(conn: int, token: string, characterId: int)

  const SuccessResponse := AuthenticationResponse(true, AcceptedMessage)
  const FailureResponse := AuthenticationResponse(false, RejectedMessage)

  /** Every player addition is immediately followed by the success response to the same
      connection: a player is only ever added as the first half of an admission. */
  ghost predicate AddedThenAccepted(events: seq<Event>) {
    forall k :: 0 <= k < |events| && events[k].PlayerAdded? ==>
      k + 1 < |events| && events[k + 1] == Sent(events[k].conn, SuccessResponse)
  }

  /** A player has been added for connection `c`. */
  ghost predicate PlayerAddedFor(events: seq<Event>, c: int) {
    exists k :: 0 <= k < |events| && events[k].PlayerAdded? && events[k].conn == c
  }

  /** The 30-second check for connection `c`, due at `due`, is pending. */
  ghost predicate TimeoutPending(timers: seq<Timer>, c: int, due: int) {
    exists k :: 0 <= k < |timers| && timers[k] == AuthTimeout(c, due)
  }

  /** The responses sent to connection `c`. */
  function ResponsesTo(events: seq<Event>, c: int): nat
    decreases |events|
  {
    if events == [] then 0
    else ResponsesTo(events[..|events| - 1], c)
         + (if events[|events| - 1].Sent? && events[|events| - 1].conn == c then 1 else 0)
  }

  /** The verifications in flight for connection `c`. */
  function InFlightFor(vs: seq<Verification>, c: int): nat
    decreases |vs|
  {
    if vs == [] then 0 else (if vs[0].conn == c then 1 else 0) + InFlightFor(vs[1..], c)
  }

  lemma {:induction false} ResponsesToAppend(events: seq<Event>, e: Event, c: int)
    ensures ResponsesTo(events + [e], c) == ResponsesTo(events, c) + (if e.Sent? && e.conn == c then 1 else 0)
  {
    assert (events + [e])[..|events|] == events;
  }

  lemma {:induction false} InFlightConcat(a: seq<Verification>, b: seq<Verification>, c: int)
    ensures InFlightFor(a + b, c) == InFlightFor(a, c) + InFlightFor(b, c)
    decreases |a|
  {
    if a == [] {
      assert a + b == b;
    } else {
      assert (a + b)[1..] == a[1..] + b;
      InFlightConcat(a[1..], b, c);
    }
  }

  /** Completing the verification at `i` takes exactly one off its connection's count. */
  lemma InFlightRemove(vs: seq<Verification>, i: nat, c: int)
    requires i < |vs|
    ensures InFlightFor(vs[..i] + vs[i + 1..], c) + (if vs[i].conn == c then 1 else 0) == InFlightFor(vs, c)
  {
    assert vs == vs[..i] + ([vs[i]] + vs[i + 1..]);
    InFlightConcat(vs[..i], [vs[i]] + vs[i + 1..], c);
    InFlightConcat([vs[i]], vs[i + 1..], c);
    InFlightConcat(vs[..i], vs[i + 1..], c);
    assert [vs[i]][1..] == [];
  }

  /** `SpawnPlayerForConnection`'s position: the saved position, unless it equals the origin
      under Unity's `Vector3 ==` (squared distance below 1e-10), in which case the start
      point, or the origin when there is none. */
  function SpawnPosition(data: CharacterData, startPosition: Option<Vec3>): Vec3 {
    var saved := Vec3(data.positionX, data.positionY, data.positionZ);
    if ApproxEqual(saved, Zero) then startPosition.GetOr(Zero) else saved
  }

  /** A character saved at the origin spawns at the start point (or the origin); one with
      a coordinate at least 1e-5 away from 0 spawns where it was saved. */
  lemma SpawnPositionRule(data: CharacterData, startPosition: Option<Vec3>)
    ensures data.positionX == 0.0 && data.positionY == 0.0 && data.positionZ == 0.0 ==>
      SpawnPosition(data, startPosition) == startPosition.GetOr(Zero)
    ensures Square(data.positionX) >= EqualityToleranceSqr
            || Square(data.positionY) >= EqualityToleranceSqr
            || Square(data.positionZ) >= EqualityToleranceSqr ==>
      SpawnPosition(data, startPosition) == Vec3(data.positionX, data.positionY, data.positionZ)
  {
    ApproxEqualBounds(Vec3(data.positionX, data.positionY, data.positionZ), Zero);
  }

  /** The timers after a rejection as the source is written: `Invoke` looks the method
      up by name on the component, and `DisconnectClient` is a local function, which
      that lookup does not find, so nothing is scheduled. */
  function RejectionTimersAsWritten(timers: seq<Timer>, c: int, now: int): (r: seq<Timer>)
    ensures forall t :: t in r <==> t in timers
  {
    timers
  }

  /** The timers after a rejection as intended: the connection is dropped one second later. */
  function RejectionTimers(timers: seq<Timer>, c: int, now: int): (r: seq<Timer>)
    ensures DelayedDisconnect(c, now + RejectDisconnectDelayMs) in r
    ensures forall t :: t in timers ==> t in r
    ensures forall t :: t in r ==> t in timers || t == DelayedDisconnect(c, now + RejectDisconnectDelayMs)
  {
    timers + [DelayedDisconnect(c, now + RejectDisconnectDelayMs)]
  }

  /** A connection rejected 500 ms after it connected: as written, nothing for it falls
      due before the 30-second check; as intended, it is dropped at 1.5 s. */
  lemma RejectedConnectionWaitsForTimeout()
    ensures var timers := [AuthTimeout(7, AuthTimeoutMs)];
      && AuthTimeout(7, AuthTimeoutMs) in RejectionTimersAsWritten(timers, 7, 500)
      && (forall t :: t in RejectionTimersAsWritten(timers, 7, 500) && t.conn == 7 ==> t.due >= AuthTimeoutMs)
      && DelayedDisconnect(7, 1500) in RejectionTimers(timers, 7, 500)
  {
  }

  /** Every verification, timer and event names a connection the server knows. */
  ghost predicate VerificationsNamed(keys: set<int>, vs: seq<Verification>) {
    forall k :: 0 <= k < |vs| ==> vs[k].conn in keys
  }

  ghost predicate TimersNamed(keys: set<int>, timers: seq<Timer>) {
    forall k :: 0 <= k < |timers| ==> timers[k].conn in keys
  }

  ghost predicate EventsNamed(keys: set<int>, events: seq<Event>) {
    forall k :: 0 <= k < |events| ==> events[k].conn in keys
  }

  /** Each request is answered exactly once: per connection, the responses sent plus the
      verifications in flight equal the requests received. */
  ghost predicate Answered(requestCount: map<int, nat>, events: seq<Event>, vs: seq<Verification>) {
    forall c :: c in requestCount ==> ResponsesTo(events, c) + InFlightFor(vs, c) == requestCount[c]
  }

  /** A connection owns a player only after a player was added for it. */
  ghost predicate Owned(conns: map<int, ConnState>, events: seq<Event>) {
    forall c :: c in conns && conns[c].identity.Some? ==> PlayerAddedFor(events, c)
  }

  /** An open connection without a player has its 30-second check pending, due 30 s after
      it connected. */
  ghost predicate Watched(conns: map<int, ConnState>, connectedAt: map<int, int>, timers: seq<Timer>) {
    forall c :: c in conns && c in connectedAt && conns[c].open && conns[c].identity.None? ==>
      TimeoutPending(timers, c, connectedAt[c] + AuthTimeoutMs)
  }

  class MmoNetworkManager {
    /** Milliseconds since the server started. */
    var clock: int
    var connections: map<int, ConnState>
    /** `pendingAuth`; no code path adds to it. */
    var pendingAuth: map<int, PendingAuthData>
    var verifications: seq<Verification>
    var timers: seq<Timer>
    var events: seq<Event>
    /** When each connection connected. */
    ghost var connectedAt: map<int, int>
    /** How many `AuthenticationRequest`s each connection has sent. */
    ghost var requestCount: map<int, nat>

    /** Each request is answered exactly once; a connection owns a player only after one
        was added for it, and every addition is followed by the success response; an open
        connection without a player is watched by its 30-second check. */
    ghost predicate Valid()
      reads this
    {
      && connections.Keys == requestCount.Keys == connectedAt.Keys
      && VerificationsNamed(connections.Keys, verifications)
      && TimersNamed(connections.Keys, timers)
      && EventsNamed(connections.Keys, events)
      && Answered(requestCount, events, verifications)
      && AddedThenAccepted(events)
      && Owned(connections, events)
      && Watched(connections, connectedAt, timers)
    }

    /** A server with no connections, at time `clock`. */
    constructor (clock: int)
      ensures Valid() && this.clock == clock
      ensures connections == map[] && pendingAuth == map[]
      ensures verifications == [] && timers == [] && events == []
    {
      this.clock := clock;
      connections, pendingAuth := map[], map[];
      verifications, timers, events := [], [], [];
      connectedAt, requestCount := map[], map[];
    }

    /** Time passes. */
    method AdvanceClock(now: int)
      requires Valid() && now >= clock
      modifies this`clock
      ensures Valid() && clock == now
    {
      clock := now;
    }

    /** `OnServerConnect`: the connection is open with no player and its 30-second check is
        started; no player is added (the base class is not called). */
    method OnServerConnect(c: int)
      requires Valid() && c !in connections
      modifies this`connections, this`timers, this`connectedAt, this`requestCount
      ensures Valid()
      ensures connections == old(connections)[c := ConnState(true, None)]
      ensures timers == old(timers) + [AuthTimeout(c, clock + AuthTimeoutMs)]
      ensures events == old(events) && verifications == old(verifications)
    {
      var t := AuthTimeout(c, clock + AuthTimeoutMs);
      ConnectKeepsNames(connections.Keys, verifications, timers, events, t);
      ConnectKeepsAnswers(connections.Keys, requestCount, events, verifications, c);
      OwnedUpdate(connections, events, c, ConnState(true, None));
      ConnectKeepsWatch(connections, connectedAt, timers, c, clock);
      connections := connections[c := ConnState(true, None)];
      connectedAt := connectedAt[c := clock];
      requestCount := requestCount[c := 0];
      timers := timers + [t];
    }

    /** `OnServerDisconnect`, run when an open connection closes (either side): only that
        connection's `pendingAuth` entry is removed, the base class destroys its player, and
        the connection is closed. */
    method OnServerDisconnect(c: int)
      requires Valid() && c in connections && connections[c].open
      modifies this`connections, this`pendingAuth, this`events
      ensures Valid()
      ensures pendingAuth == old(pendingAuth) - {c}
      ensures connections == old(connections)[c := ConnState(false, None)]
      ensures events == old(events) + [Disconnected(c)]
      ensures timers == old(timers) && verifications == old(verifications)
    {
      var e := Disconnected(c);
      LogAppend(events, e);
      EventsNamedAppend(connections.Keys, events, e);
      AnsweredAfter(requestCount, events, verifications, events + [e], verifications);
      OwnedGrow(connections, events, events + [e]);
      OwnedUpdate(connections, events + [e], c, ConnState(false, None));
      WatchedUpdate(connections, connectedAt, timers, c, ConnState(false, None));
      pendingAuth := pendingAuth - {c};
      connections := connections[c := ConnState(false, None)];
      events := events + [e];
    }

    /** Closes connection `c` if it is still open (`conn.Disconnect()`); a closed connection
        is left alone. */
    method Disconnect(c: int)
      requires Valid() && c in connections
      modifies this`connections, this`pendingAuth, this`events
      ensures Valid()
      ensures old(connections[c].open) ==>
        && connections == old(connections)[c := ConnState(false, None)]
        && events == old(events) + [Disconnected(c)]
      ensures !old(connections[c].open) ==> connections == old(connections) && events == old(events)
      ensures timers == old(timers) && verifications == old(verifications)
    {
      if connections[c].open {
        OnServerDisconnect(c);
      }
    }

    /** `OnAuthenticationRequest`: a verification is started for every request, whatever the
        connection's state (there is no guard against a second request). */
    method OnAuthenticationRequest(c: int, msg: AuthenticationRequest)
      requires Valid() && c in connections && connections[c].open
      modifies this`verifications, this`requestCount
      ensures Valid()
      ensures verifications == old(verifications) + [Verification(c, msg.token, msg.characterId)]
      ensures requestCount == old(requestCount)[c := old(requestCount)[c] + 1]
    {
      var v := Verification(c, msg.token, msg.characterId);
      RequestKeepsAnswers(requestCount, events, verifications, v);
      VerificationsNamedAppend(connections.Keys, verifications, v);
      verifications := verifications + [v];
      requestCount := requestCount[c := requestCount[c] + 1];
    }

    /** `SpawnPlayerForConnection`: a new player, carrying the character's id, name, race and
        class, is added for the connection at the spawn position, unless the connection
        already owns one, in which case Mirror refuses the addition. */
    method SpawnPlayerForConnection(c: int, data: CharacterData, startPosition: Option<Vec3>)
      requires c in connections
      modifies this`connections, this`events
      ensures old(connections[c].identity).None? ==>
        && c in connections && connections[c].identity.Some?
        && connections == old(connections)[c := ConnState(old(connections[c].open), connections[c].identity)]
        && fresh(connections[c].identity.value)
        && connections[c].identity.value.characterId == data.id
        && connections[c].identity.value.characterName == data.name
        && connections[c].identity.value.race == data.race
        && connections[c].identity.value.characterClass == data.characterClass
        && connections[c].identity.value.currentState == Idle
        && events == old(events) + [PlayerAdded(c, data, SpawnPosition(data, startPosition))]
      ensures old(connections[c].identity).Some? ==>
        connections == old(connections) && events == old(events)
    {
      var position := SpawnPosition(data, startPosition);
      var player := new NetworkPlayer();
      player.SetCharacterData(data);
      if connections[c].identity.None? {
        connections := connections[c := ConnState(connections[c].open, Some(player))];
        events := events + [PlayerAdded(c, data, position)];
      }
    }

    /** The callback of the verification at `i`, given the identity service's answers: on
        success the player is added first and then one success response is sent; on
        failure one rejection is sent, no player is added, and the connection is dropped a
        second later. */
    method CompleteVerification(i: nat, validateResponse: WebResult, characterResponse: WebResult,
                                parsers: Parsers, startPosition: Option<Vec3>)
      requires Valid() && i < |verifications|
      modifies this`connections, this`events, this`verifications, this`timers
      ensures Valid()
      ensures var v := old(verifications[i]);
        var verdict := ValidateTokenAndCharacter(v.token, v.characterId, validateResponse,
                                                 characterResponse, parsers).callbacks[0];
        && verifications == old(verifications[..i] + verifications[i + 1..])
        && (verdict.success && old(connections[v.conn].identity).None? ==>
              && events == old(events) + [PlayerAdded(v.conn, verdict.data.value,
                                                       SpawnPosition(verdict.data.value, startPosition)),
                                          Sent(v.conn, SuccessResponse)]
              && connections[v.conn].identity.Some?
              && connections[v.conn].identity.value.characterId == verdict.data.value.id
              && timers == old(timers))
        && (verdict.success && old(connections[v.conn].identity).Some? ==>
              events == old(events) + [Sent(v.conn, SuccessResponse)]
              && connections == old(connections) && timers == old(timers))
        && (!verdict.success ==>
              && events == old(events) + [Sent(v.conn, FailureResponse)]
              && connections == old(connections)
              && timers == RejectionTimers(old(timers), v.conn, clock))
    {
      var v := verifications[i];
      var verdict := ValidateTokenAndCharacter(v.token, v.characterId, validateResponse,
                                               characterResponse, parsers).callbacks[0];
      if verdict.success {
        Admit(i, verdict.data.value, startPosition);
      } else {
        Refuse(i);
      }
    }

    /** The success half of the callback for the verification at `i`: the player is added
        (unless the connection already owns one), then the success response is sent. */
    method Admit(i: nat, data: CharacterData, startPosition: Option<Vec3>)
      requires Valid() && i < |verifications|
      modifies this`connections, this`events, this`verifications
      ensures Valid()
      ensures var c := old(verifications[i].conn);
        && verifications == old(verifications[..i] + verifications[i + 1..])
        && timers == old(timers)
        && (old(connections[c].identity).None? ==>
              && events == old(events) + [PlayerAdded(c, data, SpawnPosition(data, startPosition)),
                                          Sent(c, SuccessResponse)]
              && connections[c].identity.Some?
              && connections[c].identity.value.characterId == data.id)
        && (old(connections[c].identity).Some? ==>
              events == old(events) + [Sent(c, SuccessResponse)] && connections == old(connections))
    {
      if connections[verifications[i].conn].identity.None? {
        AdmitNew(i, data, startPosition);
      } else {
        AdmitAgain(i);
      }
    }

    /** `Admit` for a connection without a player. */
    method AdmitNew(i: nat, data: CharacterData, startPosition: Option<Vec3>)
      requires Valid() && i < |verifications| && connections[verifications[i].conn].identity.None?
      modifies this`connections, this`events, this`verifications
      ensures Valid()
      ensures var c := old(verifications[i].conn);
        && verifications == old(verifications[..i] + verifications[i + 1..])
        && timers == old(timers)
        && events == old(events) + [PlayerAdded(c, data, SpawnPosition(data, startPosition)),
                                    Sent(c, SuccessResponse)]
        && c in connections && connections[c].identity.Some?
        && connections[c].identity.value.characterId == data.id
    {
      var c := verifications[i].conn;
      var position := SpawnPosition(data, startPosition);
      var sent := Sent(c, SuccessResponse);
      var added := PlayerAdded(c, data, position);
      var events' := events + [added, sent];
      VerificationsNamedRemove(connections.Keys, verifications, i);
      LogAdmit(events, c, data, position);
      EventsNamedAppend(connections.Keys, events, added);
      EventsNamedAppend(connections.Keys, events + [added], sent);
      assert events + [added] + [sent] == events';
      CompleteKeepsAnswers(requestCount, events, verifications, i, events');
      OwnedGrow(connections, events, events');
      var conns0 := connections;
      SpawnPlayerForConnection(c, data, startPosition);
      OwnedUpdate(conns0, events', c, connections[c]);
      WatchedUpdate(conns0, connectedAt, timers, c, connections[c]);
      events := events + [sent];
      verifications := verifications[..i] + verifications[i + 1..];
    }

    /** `Admit` for a connection that already owns a player: Mirror refuses the addition,
        and the success response is sent all the same. */
    method AdmitAgain(i: nat)
      requires Valid() && i < |verifications| && connections[verifications[i].conn].identity.Some?
      modifies this`events, this`verifications
      ensures Valid()
      ensures var c := old(verifications[i].conn);
        && verifications == old(verifications[..i] + verifications[i + 1..])
        && events == old(events) + [Sent(c, SuccessResponse)]
    {
      var c := verifications[i].conn;
      var sent := Sent(c, SuccessResponse);
      VerificationsNamedRemove(connections.Keys, verifications, i);
      LogAppend(events, sent);
      EventsNamedAppend(connections.Keys, events, sent);
      CompleteKeepsAnswers(requestCount, events, verifications, i, events + [sent]);
      OwnedGrow(connections, events, events + [sent]);
      events := events + [sent];
      verifications := verifications[..i] + verifications[i + 1..];
    }

    /** The failure half of the callback for the verification at `i`: the rejection is sent
        and the connection is scheduled to be dropped a second later. */
    method Refuse(i: nat)
      requires Valid() && i < |verifications|
      modifies this`events, this`verifications, this`timers
      ensures Valid()
      ensures var c := old(verifications[i].conn);
        && verifications == old(verifications[..i] + verifications[i + 1..])
        && events == old(events) + [Sent(c, FailureResponse)]
        && timers == RejectionTimers(old(timers), c, clock)
    {
      var c := verifications[i].conn;
      var sent := Sent(c, FailureResponse);
      var t := DelayedDisconnect(c, clock + RejectDisconnectDelayMs);
      VerificationsNamedRemove(connections.Keys, verifications, i);
      LogAppend(events, sent);
      EventsNamedAppend(connections.Keys, events, sent);
      CompleteKeepsAnswers(requestCount, events, verifications, i, events + [sent]);
      OwnedGrow(connections, events, events + [sent]);
      WatchedTimersAppend(connections, connectedAt, timers, t);
      TimersNamedAppend(connections.Keys, timers, t);
      events := events + [sent];
      timers := RejectionTimers(timers, c, clock);
      verifications := verifications[..i] + verifications[i + 1..];
    }

    /** `AuthenticationTimeout` and the delayed disconnect, when their time has come: the
        30-second check drops the connection only if it still has no player; the delayed
        disconnect drops it regardless. The timer is used up either way. */
    method Fire(i: nat)
      requires Valid() && i < |timers| && timers[i].due <= clock
      modifies this`connections, this`pendingAuth, this`events, this`timers
      ensures Valid()
      ensures timers == old(timers[..i] + timers[i + 1..])
      ensures var t := old(timers[i]);
        var drop := t.DelayedDisconnect? || old(connections[t.conn].identity).None?;
        && (drop && old(connections[t.conn].open) ==>
              connections == old(connections)[t.conn := ConnState(false, None)]
              && events == old(events) + [Disconnected(t.conn)])
        && (!(drop && old(connections[t.conn].open)) ==>
              connections == old(connections) && events == old(events))
    {
      var t := timers[i];
      assert t.conn in connections;
      var drop := t.DelayedDisconnect? || connections[t.conn].identity.None?;
      if drop {
        Disconnect(t.conn);
      }
      WatchedTimerRemove(connections, connectedAt, timers, i);
      TimersNamedRemove(connections.Keys, timers, i);
      timers := timers[..i] + timers[i + 1..];
    }

    /** `OnServerAddPlayer`: does nothing; players are added only by admission. */
    method OnServerAddPlayer(c: int)
      requires Valid()
      ensures Valid()
      ensures connections == old(connections) && events == old(events)
    {
    }
  }

  lemma ConnectKeepsNames(keys: set<int>, vs: seq<Verification>, timers: seq<Timer>, events: seq<Event>, t: Timer)
    requires VerificationsNamed(keys, vs) && TimersNamed(keys, timers) && EventsNamed(keys, events)
    ensures var keys' := keys + {t.conn};
      VerificationsNamed(keys', vs) && TimersNamed(keys', timers + [t]) && EventsNamed(keys', events)
  {
  }

  lemma VerificationsNamedAppend(keys: set<int>, vs: seq<Verification>, v: Verification)
    requires VerificationsNamed(keys, vs) && v.conn in keys
    ensures VerificationsNamed(keys, vs + [v])
  {
  }

  lemma VerificationsNamedRemove(keys: set<int>, vs: seq<Verification>, i: nat)
    requires VerificationsNamed(keys, vs) && i < |vs|
    ensures VerificationsNamed(keys, vs[..i] + vs[i + 1..])
  {
    var rest := vs[..i] + vs[i + 1..];
    forall k | 0 <= k < |rest|
      ensures rest[k].conn in keys
    {
      assert rest[k] == if k < i then vs[k] else vs[k + 1];
    }
  }

  lemma TimersNamedAppend(keys: set<int>, timers: seq<Timer>, t: Timer)
    requires TimersNamed(keys, timers) && t.conn in keys
    ensures TimersNamed(keys, timers + [t])
  {
  }

  lemma TimersNamedRemove(keys: set<int>, timers: seq<Timer>, i: nat)
    requires TimersNamed(keys, timers) && i < |timers|
    ensures TimersNamed(keys, timers[..i] + timers[i + 1..])
  {
    var rest := timers[..i] + timers[i + 1..];
    forall k | 0 <= k < |rest|
      ensures rest[k].conn in keys
    {
      assert rest[k] == if k < i then timers[k] else timers[k + 1];
    }
  }

  lemma EventsNamedAppend(keys: set<int>, events: seq<Event>, e: Event)
    requires EventsNamed(keys, events) && e.conn in keys
    ensures EventsNamed(keys, events + [e])
  {
  }

  /** A new connection has neither responses nor verifications, so it starts with no
      requests and the others keep their counts. */
  lemma ConnectKeepsAnswers(keys: set<int>, requestCount: map<int, nat>, events: seq<Event>,
                            vs: seq<Verification>, c: int)
    requires Answered(requestCount, events, vs) && requestCount.Keys == keys && c !in keys
    requires VerificationsNamed(keys, vs) && EventsNamed(keys, events)
    ensures Answered(requestCount[c := 0], events, vs)
  {
    InFlightNone(vs, c);
    ResponsesNone(events, c);
  }

  /** A new request is one more verification in flight for its connection. */
  lemma RequestKeepsAnswers(requestCount: map<int, nat>, events: seq<Event>, vs: seq<Verification>, v: Verification)
    requires Answered(requestCount, events, vs) && v.conn in requestCount
    ensures Answered(requestCount[v.conn := requestCount[v.conn] + 1], events, vs + [v])
  {
    forall c | c in requestCount
      ensures InFlightFor(vs + [v], c) == InFlightFor(vs, c) + (if c == v.conn then 1 else 0)
    {
      InFlightConcat(vs, [v], c);
      assert [v][1..] == [];
    }
  }

  /** A log that gained no response keeps the counts. */
  lemma AnsweredAfter(requestCount: map<int, nat>, events: seq<Event>, vs: seq<Verification>,
                      events': seq<Event>, vs': seq<Verification>)
    requires Answered(requestCount, events, vs)
    requires forall c :: ResponsesTo(events', c) == ResponsesTo(events, c)
    requires vs' == vs
    ensures Answered(requestCount, events', vs')
  {
  }

  /** Completing the verification at `i` with one response to its connection keeps every
      connection's count. */
  lemma CompleteKeepsAnswers(requestCount: map<int, nat>, events: seq<Event>, vs: seq<Verification>,
                             i: nat, events': seq<Event>)
    requires Answered(requestCount, events, vs) && i < |vs|
    requires forall c :: ResponsesTo(events', c) == ResponsesTo(events, c) + (if c == vs[i].conn then 1 else 0)
    ensures Answered(requestCount, events', vs[..i] + vs[i + 1..])
  {
    forall c | c in requestCount
      ensures ResponsesTo(events', c) + InFlightFor(vs[..i] + vs[i + 1..], c) == requestCount[c]
    {
      InFlightRemove(vs, i, c);
    }
  }

  lemma OwnedGrow(conns: map<int, ConnState>, events: seq<Event>, events': seq<Event>)
    requires Owned(conns, events)
    requires forall c :: PlayerAddedFor(events, c) ==> PlayerAddedFor(events', c)
    ensures Owned(conns, events')
  {
  }

  lemma OwnedUpdate(conns: map<int, ConnState>, events: seq<Event>, c: int, s: ConnState)
    requires Owned(conns, events)
    requires s.identity.Some? ==> PlayerAddedFor(events, c)
    ensures Owned(conns[c := s], events)
  {
  }

  lemma ConnectKeepsWatch(conns: map<int, ConnState>, connectedAt: map<int, int>, timers: seq<Timer>,
                          c: int, now: int)
    requires Watched(conns, connectedAt, timers)
    ensures Watched(conns[c := ConnState(true, None)], connectedAt[c := now],
                    timers + [AuthTimeout(c, now + AuthTimeoutMs)])
  {
    var timers' := timers + [AuthTimeout(c, now + AuthTimeoutMs)];
    assert timers'[|timers|] == AuthTimeout(c, now + AuthTimeoutMs);
    forall c' | c' in conns && c' in connectedAt && c' != c && conns[c'].open && conns[c'].identity.None?
      ensures TimeoutPending(timers', c', connectedAt[c'] + AuthTimeoutMs)
    {
      var k :| 0 <= k < |timers| && timers[k] == AuthTimeout(c', connectedAt[c'] + AuthTimeoutMs);
      assert timers'[k] == timers[k];
    }
  }

  lemma WatchedUpdate(conns: map<int, ConnState>, connectedAt: map<int, int>, timers: seq<Timer>,
                      c: int, s: ConnState)
    requires Watched(conns, connectedAt, timers) && c in conns
    requires s.open && s.identity.None? ==> conns[c].open && conns[c].identity.None?
    ensures Watched(conns[c := s], connectedAt, timers)
  {
  }

  lemma WatchedTimersAppend(conns: map<int, ConnState>, connectedAt: map<int, int>, timers: seq<Timer>, t: Timer)
    requires Watched(conns, connectedAt, timers)
    ensures Watched(conns, connectedAt, timers + [t])
  {
    forall c | c in conns && c in connectedAt && conns[c].open && conns[c].identity.None?
      ensures TimeoutPending(timers + [t], c, connectedAt[c] + AuthTimeoutMs)
    {
      var k :| 0 <= k < |timers| && timers[k] == AuthTimeout(c, connectedAt[c] + AuthTimeoutMs);
      assert (timers + [t])[k] == timers[k];
    }
  }

  /** A timer whose connection no longer needs watching can be used up. */
  lemma WatchedTimerRemove(conns: map<int, ConnState>, connectedAt: map<int, int>, timers: seq<Timer>, i: nat)
    requires Watched(conns, connectedAt, timers) && i < |timers|
    requires timers[i].conn in conns ==> !(conns[timers[i].conn].open && conns[timers[i].conn].identity.None?)
    ensures Watched(conns, connectedAt, timers[..i] + timers[i + 1..])
  {
    var rest := timers[..i] + timers[i + 1..];
    forall c | c in conns && c in connectedAt && conns[c].open && conns[c].identity.None?
      ensures TimeoutPending(rest, c, connectedAt[c] + AuthTimeoutMs)
    {
      var k :| 0 <= k < |timers| && timers[k] == AuthTimeout(c, connectedAt[c] + AuthTimeoutMs);
      assert k != i;
      if k < i {
        assert rest[k] == timers[k];
      } else {
        assert rest[k - 1] == timers[k];
      }
    }
  }

  /** No verification is in flight for a connection that none names. */
  lemma {:induction false} InFlightNone(vs: seq<Verification>, c: int)
    requires forall k :: 0 <= k < |vs| ==> vs[k].conn != c
    ensures InFlightFor(vs, c) == 0
    decreases |vs|
  {
    if vs != [] {
      InFlightNone(vs[1..], c);
    }
  }

  /** No response has gone to a connection that the log never names. */
  lemma {:induction false} ResponsesNone(events: seq<Event>, c: int)
    requires forall k :: 0 <= k < |events| ==> !(events[k].Sent? && events[k].conn == c)
    ensures ResponsesTo(events, c) == 0
    decreases |events|
  {
    if events != [] {
      ResponsesNone(events[..|events| - 1], c);
    }
  }

  /** Appending an event other than a player addition keeps what the log guarantees and
      adds one response for the connection it is sent to, if it is a response. */
  lemma LogAppend(events: seq<Event>, e: Event)
    requires AddedThenAccepted(events) && !e.PlayerAdded?
    ensures AddedThenAccepted(events + [e])
    ensures forall c :: PlayerAddedFor(events, c) ==> PlayerAddedFor(events + [e], c)
    ensures forall c :: ResponsesTo(events + [e], c) == ResponsesTo(events, c) + (if e.Sent? && e.conn == c then 1 else 0)
  {
    var after := events + [e];
    forall k | 0 <= k < |after| && after[k].PlayerAdded?
      ensures k + 1 < |after| && after[k + 1] == Sent(after[k].conn, SuccessResponse)
    {
      assert k < |events| && after[k] == events[k];
    }
    forall c | PlayerAddedFor(events, c)
      ensures PlayerAddedFor(after, c)
    {
      var k :| 0 <= k < |events| && events[k].PlayerAdded? && events[k].conn == c;
      assert after[k] == events[k];
    }
    forall c
      ensures ResponsesTo(after, c) == ResponsesTo(events, c) + (if e.Sent? && e.conn == c then 1 else 0)
    {
      ResponsesToAppend(events, e, c);
    }
  }

  /** An admission appends a player addition and then the success response for the same
      connection: the log keeps its guarantees, now records a player for that connection,
      and has one more response for it. */
  lemma LogAdmit(events: seq<Event>, c: int, data: CharacterData, position: Vec3)
    requires AddedThenAccepted(events)
    ensures var after := events + [PlayerAdded(c, data, position), Sent(c, SuccessResponse)];
      && AddedThenAccepted(after)
      && PlayerAddedFor(after, c)
      && (forall c' :: PlayerAddedFor(events, c') ==> PlayerAddedFor(after, c'))
      && (forall c' :: ResponsesTo(after, c') == ResponsesTo(events, c') + (if c' == c then 1 else 0))
  {
    var added := events + [PlayerAdded(c, data, position)];
    var after := events + [PlayerAdded(c, data, position), Sent(c, SuccessResponse)];
    assert after == added + [Sent(c, SuccessResponse)];
    forall k | 0 <= k < |after| && after[k].PlayerAdded?
      ensures k + 1 < |after| && after[k + 1] == Sent(after[k].conn, SuccessResponse)
    {
      if k < |events| {
        assert after[k] == events[k];
        assert after[k + 1] == events[k + 1];
      }
    }
    assert after[|events|] == PlayerAdded(c, data, position);
    forall c' | PlayerAddedFor(events, c')
      ensures PlayerAddedFor(after, c')
    {
      var k :| 0 <= k < |events| && events[k].PlayerAdded? && events[k].conn == c';
      assert after[k] == events[k];
    }
    forall c'
      ensures ResponsesTo(after, c') == ResponsesTo(events, c') + (if c' == c then 1 else 0)
    {
      ResponsesToAppend(events, PlayerAdded(c, data, position), c');
      ResponsesToAppend(added, Sent(c, SuccessResponse), c');
    }
  }

  /** `OnAuthenticationResponse`, on the client: the session is marked authenticated
      exactly when the server accepted. */
  method OnAuthenticationResponse(gs: GameState, msg: AuthenticationResponse)
    modifies gs`isAuthenticated
    ensures gs.IsAuthenticated() == msg.success
  {
    if msg.success {
      gs.OnAuthenticationSuccess();
    } else {
      gs.OnAuthenticationFailed(msg.message);
    }
  }
}
