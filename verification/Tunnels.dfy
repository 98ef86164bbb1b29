/** The tunnel registry shared by the port-forward tasks. */
module Tunnels {
  import opened Text

  type TunnelId = string

  const USIZE_MAX: nat := 0xFFFF_FFFF_FFFF_FFFF
  const U64_MAX: nat := 0xFFFF_FFFF_FFFF_FFFF

  datatype Status = Starting | Running | Failed

  datatype Request = Request(id: TunnelId, name: string, listenPort: nat, authMethods: nat)

  datatype Snapshot = Snapshot(
    name: string,
    status: Status,
    listenPort: nat,
    openedAt: Option<int>,
    activeConnections: nat,
    bytesIn: nat,
    bytesOut: nat,
    lastError: Option<string>)

  /** `snapshots` and `handles`; a handle is the number of the task it can stop. */
  datatype Registry = Registry(snapshots: map<TunnelId, Snapshot>, handles: map<TunnelId, nat>)

  function Saturate(limit: nat, x: nat): nat {
    if limit < x then limit else x
  }

  // ---- Registry operations ----

  function UpsertStarting(r: Registry, request: Request): Registry {
    r.(snapshots := r.snapshots[request.id :=
      Snapshot(request.name, Starting, request.listenPort, None, 0, 0, 0, None)])
  }

  function Update(r: Registry, id: TunnelId, change: Snapshot -> Snapshot): Registry {
    if id in r.snapshots then r.(snapshots := r.snapshots[id := change(r.snapshots[id])]) else r
  }

  function MarkRunning(r: Registry, id: TunnelId, port: nat, now: int): Registry {
    Update(r, id, (s: Snapshot) => s.(status := Running, listenPort := port, openedAt := Some(now), lastError := None))
  }

  function MarkFailed(r: Registry, id: TunnelId, error: string): Registry {
    Update(r, id, (s: Snapshot) => s.(status := Failed, lastError := Some(error), activeConnections := 0))
  }

  function NoteError(r: Registry, id: TunnelId, error: string): Registry {
    Update(r, id, (s: Snapshot) => s.(lastError := Some(error)))
  }

  function ConnectionOpened(r: Registry, id: TunnelId): Registry {
    Update(r, id, (s: Snapshot) => s.(activeConnections := Saturate(USIZE_MAX, s.activeConnections + 1)))
  }

  function ConnectionClosed(r: Registry, id: TunnelId): Registry {
    Update(r, id, (s: Snapshot) =>
        s.(activeConnections := if s.activeConnections == 0 then 0 else s.activeConnections - 1))
  }

  function RecordBytesIn(r: Registry, id: TunnelId, bytes: nat): Registry {
    Update(r, id, (s: Snapshot) => s.(bytesIn := Saturate(U64_MAX, s.bytesIn + bytes)))
  }

  function RecordBytesOut(r: Registry, id: TunnelId, bytes: nat): Registry {
    Update(r, id, (s: Snapshot) => s.(bytesOut := Saturate(U64_MAX, s.bytesOut + bytes)))
  }

  function RemoveSnapshot(r: Registry, id: TunnelId): Registry {
    r.(snapshots := r.snapshots - {id})
  }

  // ---- Tasks ----

  /** What the completion handler distinguishes. */
  datatype Outcome = Completed | Cancelled | Errored(error: string)

  /** A task returns, then drops its handle, then settles its snapshot: three separate steps. */
  datatype Phase = Connecting | Forwarding | Returned(outcome: Outcome) | Unhandled(outcome: Outcome) | Done

  /** `stopRequested`: the receiver of the task's stop signal is ready. */
  datatype Task = Task(id: TunnelId, phase: Phase, stopRequested: bool)

  /** A connection task is spawned by a forwarding loop, and opens and closes on its own later. */
  datatype Stage = Spawned | Opened | Closed

  /** `counted` (history) says that the current count includes the connection's opening. */
  datatype Connection = Connection(id: TunnelId, stage: Stage, counted: bool)

  datatype State = State(registry: Registry, tasks: seq<Task>, connections: seq<Connection>)

  datatype Event =
    | Start(request: Request)
    | Stop(id: TunnelId)
    | BecomeRunning(task: nat, port: nat, now: int)
    | Return(task: nat, outcome: Outcome)
    | DropHandle(task: nat)
    | Settle(task: nat)
    | Accept(task: nat)
    | OpenConnection(connection: nat)
    | CloseConnection(connection: nat)
    | ConnectionError(connection: nat, error: string)
    | BytesIn(connection: nat, bytes: nat)
    | BytesOut(connection: nat, bytes: nat)

  function Init(): State {
    State(Registry(map[], map[]), [], [])
  }

  /** The connections of `id` are no longer part of its count. */
  function Uncount(connections: seq<Connection>, id: TunnelId): seq<Connection> {
    seq(|connections|, i requires 0 <= i < |connections| =>
      if connections[i].id == id then connections[i].(counted := false) else connections[i])
  }

  predicate StartAccepted(s: State, request: Request) {
    request.authMethods != 0 && request.id !in s.registry.handles
  }

  function StartStep(s: State, request: Request): State {
    if !StartAccepted(s, request) then s else
      var r := UpsertStarting(s.registry, request);
      State(
        r.(handles := r.handles[request.id := |s.tasks|]),
        s.tasks + [Task(request.id, Connecting, false)],
        Uncount(s.connections, request.id))
  }

  function Signal(tasks: seq<Task>, t: nat): seq<Task> {
    if t < |tasks| then tasks[t := tasks[t].(stopRequested := true)] else tasks
  }

  /**
   A handle owns the only sender of its task's stop signal. Whoever removes it, with or without
   sending, completes the receiver: the task that the handle belongs to is told to stop.
   */
  function RemoveHandle(s: State, id: TunnelId): State {
    if id in s.registry.handles then
      s.(registry := s.registry.(handles := s.registry.handles - {id}),
          tasks := Signal(s.tasks, s.registry.handles[id]))
    else s
  }

  /** Stopping a tunnel with a handle only signals its task; without one it forgets the snapshot. */
  function StopStep(s: State, id: TunnelId): State {
    if id in s.registry.handles then RemoveHandle(s, id)
    else s.(registry := RemoveSnapshot(s.registry, id), connections := Uncount(s.connections, id))
  }

  /** Connecting and binding can only fail; the loop fails, or ends well once told to stop. */
  predicate MayReturn(task: Task, outcome: Outcome) {
    || (task.phase.Connecting? && outcome.Errored?)
    || (task.phase.Forwarding? && (outcome.Errored? || (outcome.Completed? && task.stopRequested)))
  }

  /** By id: the handle that goes is whichever the id has by now. */
  function DropHandleStep(s: State, t: nat): State
    requires t < |s.tasks| && s.tasks[t].phase.Returned?
  {
    var r := RemoveHandle(s, s.tasks[t].id);
    r.(tasks := r.tasks[t := r.tasks[t].(phase := Unhandled(s.tasks[t].phase.outcome))])
  }

  function SettleStep(s: State, t: nat): State
    requires t < |s.tasks| && s.tasks[t].phase.Unhandled?
  {
    var id, outcome := s.tasks[t].id, s.tasks[t].phase.outcome;
    State(
      if outcome.Errored? then MarkFailed(s.registry, id, outcome.error) else RemoveSnapshot(s.registry, id),
      s.tasks[t := s.tasks[t].(phase := Done)],
      Uncount(s.connections, id))
  }

  predicate AtStage(s: State, k: nat, stage: Stage) {
    k < |s.connections| && s.connections[k].stage == stage
  }

  /** What the connection tasks do; each step is possible at one stage only. */
  function TrafficStep(s: State, e: Event): State {
    match e
    case Accept(t) =>
      if t < |s.tasks| && s.tasks[t].phase.Forwarding? then
        s.(connections := s.connections + [Connection(s.tasks[t].id, Spawned, false)])
      else s
    case OpenConnection(k) =>
      if AtStage(s, k, Spawned) then
        var id := s.connections[k].id;
        s.(registry := ConnectionOpened(s.registry, id),
           connections := s.connections[k := Connection(id, Opened, id in s.registry.snapshots)])
      else s
    case CloseConnection(k) =>
      if AtStage(s, k, Opened) then
        s.(registry := ConnectionClosed(s.registry, s.connections[k].id),
           connections := s.connections[k := s.connections[k].(stage := Closed)])
      else s
    case ConnectionError(k, error) =>
      if AtStage(s, k, Opened) then s.(registry := NoteError(s.registry, s.connections[k].id, error)) else s
    case BytesIn(k, bytes) =>
      if AtStage(s, k, Opened) then s.(registry := RecordBytesIn(s.registry, s.connections[k].id, bytes)) else s
    case BytesOut(k, bytes) =>
      if AtStage(s, k, Opened) then s.(registry := RecordBytesOut(s.registry, s.connections[k].id, bytes)) else s
    case _ => s
  }

  /** An event that cannot happen in the current state leaves it unchanged. */
  function Step(s: State, e: Event): State {
    match e
    case Start(request) => StartStep(s, request)
    case Stop(id) => StopStep(s, id)
    case BecomeRunning(t, port, now) =>
      if t < |s.tasks| && s.tasks[t].phase.Connecting? then
        s.(registry := MarkRunning(s.registry, s.tasks[t].id, port, now),
           tasks := s.tasks[t := s.tasks[t].(phase := Forwarding)])
      else s
    case Return(t, outcome) =>
      if t < |s.tasks| && MayReturn(s.tasks[t], outcome) then
        s.(tasks := s.tasks[t := s.tasks[t].(phase := Returned(outcome))])
      else s
    case DropHandle(t) =>
      if t < |s.tasks| && s.tasks[t].phase.Returned? then DropHandleStep(s, t) else s
    case Settle(t) =>
      if t < |s.tasks| && s.tasks[t].phase.Unhandled? then SettleStep(s, t) else s
    case _ => TrafficStep(s, e)
  }

  function RunFrom(s: State, events: seq<Event>): State {
    if events == [] then s else Step(RunFrom(s, events[..|events| - 1]), events[|events| - 1])
  }

  function Run(events: seq<Event>): State {
    RunFrom(Init(), events)
  }

  lemma RunFromCons(s: State, e: Event, rest: seq<Event>)
    ensures RunFrom(s, [e] + rest) == RunFrom(Step(s, e), rest)
    decreases |rest|
  {
    if rest == [] {
      assert ([e] + rest)[..0] == [];
    } else {
      var n := |rest|;
      RunFromCons(s, e, rest[..n - 1]);
      assert ([e] + rest)[..n] == [e] + rest[..n - 1];
    }
  }

  /** A run goes on from where its beginning ended. */
  lemma {:induction false} RunFromAppend(s: State, first: seq<Event>, rest: seq<Event>)
    ensures RunFrom(s, first + rest) == RunFrom(RunFrom(s, first), rest)
    decreases |rest|
  {
    if rest == [] {
      assert first + rest == first;
    } else {
      var n := |rest| - 1;
      RunFromAppend(s, first, rest[..n]);
      assert (first + rest)[..|first| + n] == first + rest[..n];
    }
  }
}
