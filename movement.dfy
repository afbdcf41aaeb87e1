/**
 * Server-side movement authority (Scripts/Gameplay/PlayerMovementServer.cs)
 * and the client command that feeds it (`NetworkPlayer.CmdRequestMove`).
 *
 * Unity's navigation is an oracle: `NavMesh.SamplePosition` is the controller's
 * `samplePosition` function (a point and a search radius to the nearest
 * navigable point, or nothing), and what the agent reports on a tick
 * (`pathPending`, `remainingDistance`, `hasPath`, `velocity`) arrives as an
 * `AgentStatus` value. The agent keeps the path target and the position the
 * controller writes.
 */
module Movement {
  import opened Base
  import opened NetworkPlayers

  /** Search radius for a move request (`SamplePosition(..., 2f, ...)`). */
  const MoveSampleRadius: real := 2.0
  /** Search radius for a teleport (`SamplePosition(..., 5f, ...)`). */
  const TeleportSampleRadius: real := 5.0
  /** The serialized `stoppingDistance` the agent is configured with in `Start`. */
  const StoppingDistance: real := 0.5

  /** The agent's report on one tick. */
  datatype AgentStatus = AgentStatus(
    pathPending: bool,
    remainingDistance: real,
    hasPath: bool,
    velocitySqrMagnitude: real)

  /** The arrival test of `Update`: no path computation pending, within stopping
      distance, and either no path left or no residual velocity. */
  predicate Arrived(status: AgentStatus, stoppingDistance: real) {
    && !status.pathPending
    && status.remainingDistance <= stoppingDistance
    && (!status.hasPath || status.velocitySqrMagnitude == 0.0)
  }

  /** Unity's `NavMeshAgent`, reduced to what the controller writes. */
  class NavAgent {
    /** The path target set by `SetDestination`; `None` once the path is reset. */
    var destination: Option<Vec3>
    var position: Vec3
    var stoppingDistance: real

    constructor (position: Vec3)
      ensures destination == None && this.position == position && stoppingDistance == 0.0
    {
      destination := None;
      this.position := position;
      stoppingDistance := 0.0;
    }

    method SetDestination(target: Vec3)
      modifies this`destination
      ensures destination == Some(target)
    {
      destination := Some(target);
    }

    method ResetPath()
      modifies this`destination
      ensures destination == None
    {
      destination := None;
    }

    method Warp(target: Vec3)
      modifies this`position
      ensures position == target
    {
      position := target;
    }
  }

  class PlayerMovementServer {
    const isServer: bool
    const samplePosition: (Vec3, real) -> Option<Vec3>
    const agent: NavAgent
    const networkPlayer: NetworkPlayer

    var targetPosition: Vec3
    var isMoving: bool
    /** The raw destination whose sample produced `targetPosition`. */
    ghost var requested: Vec3

    /** While moving, the agent pursues `targetPosition`, which a successful radius-2
        sample produced; while not moving, the agent has no path. The entity's state
        is `Moving` exactly while moving and `Idle` otherwise (never `Dead`). */
    ghost predicate Valid()
      reads this, agent, networkPlayer
    {
      && networkPlayer.Valid()
      && agent.stoppingDistance == StoppingDistance
      && agent.destination == (if isMoving then Some(targetPosition) else None)
      && (isMoving ==> samplePosition(requested, MoveSampleRadius) == Some(targetPosition))
      && networkPlayer.currentState == (if isMoving then Moving else Idle)
    }

    /** `Awake` and `Start`: binds the components and sets the agent's stopping distance. */
    constructor (isServer: bool, samplePosition: (Vec3, real) -> Option<Vec3>,
                 agent: NavAgent, networkPlayer: NetworkPlayer)
      requires networkPlayer.Valid() && networkPlayer.currentState == Idle
      requires agent.destination == None
      modifies agent`stoppingDistance
      ensures Valid() && !isMoving && targetPosition == Zero
      ensures this.isServer == isServer && this.samplePosition == samplePosition
      ensures this.agent == agent && this.networkPlayer == networkPlayer
    {
      this.isServer := isServer;
      this.samplePosition := samplePosition;
      this.agent := agent;
      this.networkPlayer := networkPlayer;
      targetPosition := Zero;
      isMoving := false;
      requested := Zero;
      new;
      agent.stoppingDistance := StoppingDistance;
    }

    /** `MoveToPosition`: a destination with a navigable point within radius 2 becomes the
        sampled point (not the raw destination) and the entity starts moving, replacing any
        earlier target; otherwise nothing changes. `Moving` is broadcast only when the entity
        was not already moving. */
    method MoveToPosition(destination: Vec3)
      requires Valid()
      modifies this`targetPosition, this`isMoving, this`requested
      modifies agent`destination, networkPlayer`currentState, networkPlayer`rpcLog
      ensures Valid()
      ensures samplePosition(destination, MoveSampleRadius).None? ==>
        && targetPosition == old(targetPosition) && isMoving == old(isMoving)
        && networkPlayer.currentState == old(networkPlayer.currentState)
        && networkPlayer.rpcLog == old(networkPlayer.rpcLog)
        && agent.destination == old(agent.destination)
      ensures samplePosition(destination, MoveSampleRadius).Some? ==>
        && targetPosition == samplePosition(destination, MoveSampleRadius).value
        && isMoving && networkPlayer.currentState == Moving
        && agent.destination == Some(targetPosition)
        && networkPlayer.rpcLog == old(networkPlayer.rpcLog) + (if old(isMoving) then [] else [Moving])
    {
      var hit := samplePosition(destination, MoveSampleRadius);
      if hit.Some? {
        targetPosition := hit.value;
        requested := destination;
        agent.SetDestination(targetPosition);
        isMoving := true;
        networkPlayer.SetState(Moving);
      }
    }

    /** `Update`: off the server, or while not moving, nothing happens; while moving, the
        entity stops exactly when the agent reports arrival, broadcasting one `Idle`. */
    method Update(status: AgentStatus)
      requires Valid()
      modifies this`isMoving, agent`destination, networkPlayer`currentState, networkPlayer`rpcLog
      ensures Valid()
      ensures isServer && old(isMoving) && Arrived(status, StoppingDistance) ==>
        && !isMoving && agent.destination == None && networkPlayer.currentState == Idle
        && networkPlayer.rpcLog == old(networkPlayer.rpcLog) + [Idle]
      ensures !(isServer && old(isMoving) && Arrived(status, StoppingDistance)) ==>
        && isMoving == old(isMoving) && agent.destination == old(agent.destination)
        && networkPlayer.currentState == old(networkPlayer.currentState)
        && networkPlayer.rpcLog == old(networkPlayer.rpcLog)
    {
      if !isServer {
        return;
      }
      if isMoving {
        if !status.pathPending && status.remainingDistance <= agent.stoppingDistance {
          if !status.hasPath || status.velocitySqrMagnitude == 0.0 {
            StopMovement();
          }
        }
      }
    }

    /** `StopMovement`: the entity is idle with no path; `Idle` is broadcast only if it was
        moving. */
    method StopMovement()
      requires Valid()
      modifies this`isMoving, agent`destination, networkPlayer`currentState, networkPlayer`rpcLog
      ensures Valid()
      ensures !isMoving && agent.destination == None && networkPlayer.currentState == Idle
      ensures networkPlayer.rpcLog == old(networkPlayer.rpcLog) + (if old(isMoving) then [Idle] else [])
    {
      isMoving := false;
      agent.ResetPath();
      networkPlayer.SetState(Idle);
    }

    /** `Teleport`: always stops first, even when no navigable point is found; then warps to
        the point sampled within radius 5, if there is one. */
    method Teleport(position: Vec3)
      requires Valid()
      modifies this`isMoving, agent`destination, agent`position
      modifies networkPlayer`currentState, networkPlayer`rpcLog
      ensures Valid()
      ensures !isMoving && agent.destination == None && networkPlayer.currentState == Idle
      ensures networkPlayer.rpcLog == old(networkPlayer.rpcLog) + (if old(isMoving) then [Idle] else [])
      ensures agent.position == samplePosition(position, TeleportSampleRadius).GetOr(old(agent.position))
    {
      StopMovement();
      var hit := samplePosition(position, TeleportSampleRadius);
      if hit.Some? {
        agent.Warp(hit.value);
      }
    }
  }

  /** `NetworkPlayer.CmdRequestMove`: forwards the requested point unchanged to the
      entity's movement controller when it has one, and otherwise does nothing. Which
      connection may issue it is decided by Mirror's command authority, outside this model. */
  method CmdRequestMove(movementServer: PlayerMovementServer?, targetPosition: Vec3)
    requires movementServer != null ==> movementServer.Valid()
    modifies Controllers(movementServer)`targetPosition, Controllers(movementServer)`isMoving
    modifies Controllers(movementServer)`requested, Agents(movementServer)`destination
    modifies Players(movementServer)`currentState, Players(movementServer)`rpcLog
    ensures movementServer != null ==> movementServer.Valid()
    ensures movementServer != null ==>
      var m := movementServer;
      var hit := m.samplePosition(targetPosition, MoveSampleRadius);
      && (hit.None? ==>
            && m.targetPosition == old(m.targetPosition) && m.isMoving == old(m.isMoving)
            && m.networkPlayer.currentState == old(m.networkPlayer.currentState)
            && m.networkPlayer.rpcLog == old(m.networkPlayer.rpcLog)
            && m.agent.destination == old(m.agent.destination))
      && (hit.Some? ==>
            && m.targetPosition == hit.value && m.isMoving && m.networkPlayer.currentState == Moving
            && m.agent.destination == Some(hit.value)
            && m.networkPlayer.rpcLog == old(m.networkPlayer.rpcLog) + (if old(m.isMoving) then [] else [Moving]))
  {
    if movementServer != null {
      movementServer.MoveToPosition(targetPosition);
    }
  }

  /** The objects a command may reach through a possibly missing controller: none when
      there is no controller, otherwise the controller, its agent and its entity. */
  function Controllers(m: PlayerMovementServer?): set<PlayerMovementServer> {
    if m == null then {} else {m}
  }

  function Agents(m: PlayerMovementServer?): set<NavAgent> {
    if m == null then {} else {m.agent}
  }

  function Players(m: PlayerMovementServer?): set<NetworkPlayer> {
    if m == null then {} else {m.networkPlayer}
  }

  /** Two requests in a row: only the second destination is pursued when it can be sampled
      (no queue); when it cannot, the first one stands. */
  method LastRequestWins(movementServer: PlayerMovementServer, first: Vec3, second: Vec3)
    requires movementServer.Valid()
    modifies movementServer`targetPosition, movementServer`isMoving, movementServer`requested
    modifies movementServer.agent`destination
    modifies movementServer.networkPlayer`currentState, movementServer.networkPlayer`rpcLog
    ensures movementServer.Valid()
    ensures movementServer.samplePosition(second, MoveSampleRadius).Some? ==>
      movementServer.agent.destination == movementServer.samplePosition(second, MoveSampleRadius)
    ensures movementServer.samplePosition(second, MoveSampleRadius).None?
            && movementServer.samplePosition(first, MoveSampleRadius).Some? ==>
      movementServer.agent.destination == movementServer.samplePosition(first, MoveSampleRadius)
  {
    movementServer.MoveToPosition(first);
    movementServer.MoveToPosition(second);
  }
}
