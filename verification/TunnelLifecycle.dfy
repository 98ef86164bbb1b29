/** Who owns a tunnel id, over every interleaving of starts, stops and task completions. */
module TunnelLifecycle {
  import opened Text
  import opened Tunnels

  predicate Live(task: Task) {
    !task.phase.Done?
  }

  predicate LiveTaskOf(s: State, id: TunnelId, t: nat) {
    t < |s.tasks| && s.tasks[t].id == id && Live(s.tasks[t])
  }

  ghost predicate HasLiveTask(s: State, id: TunnelId) {
    exists t: nat :: LiveTaskOf(s, id, t)
  }

  /** A start of the id is disciplined when no earlier task for it is unfinished. */
  ghost predicate Disciplined(s: State, e: Event, id: TunnelId) {
    e.Start? && e.request.id == id ==> !HasLiveTask(s, id)
  }

  /** Every start of the id is; other tunnels may be started at any time. */
  ghost predicate DisciplinedRun(events: seq<Event>, id: TunnelId) {
    events != [] ==>
      && DisciplinedRun(events[..|events| - 1], id)
      && Disciplined(Run(events[..|events| - 1]), events[|events| - 1], id)
  }

  predicate StatusFits(phase: Phase, status: Status) {
    match phase
    case Connecting => status.Starting?
    case Forwarding => status.Running?
    case Returned(_) => !status.Failed?
    case Unhandled(_) => !status.Failed?
    case Done => true
  }

  /** Still to drop its handle, and not told to stop. */
  predicate Holds(task: Task) {
    (task.phase.Connecting? || task.phase.Forwarding? || task.phase.Returned?) && !task.stopRequested
  }

  predicate HolderOf(s: State, id: TunnelId, t: nat) {
    t < |s.tasks| && s.tasks[t].id == id && Holds(s.tasks[t])
  }

  // ---- Over every run ----

  /** The handles are those of the tasks that hold one, each under its task's id. */
  ghost predicate HandlesExact(s: State) {
    && (forall id | id in s.registry.handles :: HolderOf(s, id, s.registry.handles[id]))
    && (forall id, t: nat | HolderOf(s, id, t) :: id in s.registry.handles && s.registry.handles[id] == t)
  }

  lemma RemovalKeepsHandles(s: State, id: TunnelId)
    requires HandlesExact(s)
    ensures HandlesExact(RemoveHandle(s, id))
    ensures forall t: nat :: !HolderOf(RemoveHandle(s, id), id, t)
    ensures forall i, t: nat | i != id :: HolderOf(RemoveHandle(s, id), i, t) <==> HolderOf(s, i, t)
  {
    var s' := RemoveHandle(s, id);
    assert id in s.registry.handles ==> HolderOf(s, id, s.registry.handles[id]);
    forall i, t: nat ensures HolderOf(s', i, t) <==> HolderOf(s, i, t) && i != id {
      assert HolderOf(s, id, t) ==> id in s.registry.handles && s.registry.handles[id] == t;
    }
  }

  /** A change of one task that leaves alone who holds a handle. */
  lemma SameHolders(s: State, s': State)
    requires HandlesExact(s) && s'.registry.handles == s.registry.handles
    requires forall id, t: nat :: HolderOf(s', id, t) <==> HolderOf(s, id, t)
    ensures HandlesExact(s')
  {
  }

  lemma DropKeepsHandles(s: State, t: nat)
    requires HandlesExact(s) && t < |s.tasks| && s.tasks[t].phase.Returned?
    ensures HandlesExact(DropHandleStep(s, t))
  {
    var id := s.tasks[t].id;
    var r, s' := RemoveHandle(s, id), DropHandleStep(s, t);
    RemovalKeepsHandles(s, id);
    forall i, u: nat ensures HolderOf(s', i, u) <==> HolderOf(r, i, u) {
      assert u == t ==> !HolderOf(r, id, t);
    }
    SameHolders(r, s');
  }

  lemma StartKeepsHandles(s: State, request: Request)
    requires HandlesExact(s)
    ensures HandlesExact(StartStep(s, request))
  {
    if StartAccepted(s, request) {
      var s', n := StartStep(s, request), |s.tasks|;
      forall id, t: nat ensures HolderOf(s', id, t) <==> HolderOf(s, id, t) || (id == request.id && t == n) {
      }
    }
  }

  lemma HandlesStep(s: State, e: Event)
    requires HandlesExact(s)
    ensures HandlesExact(Step(s, e))
  {
    match e {
      case Start(request) => StartKeepsHandles(s, request);
      case Stop(id) =>
        RemovalKeepsHandles(s, id);
        if id !in s.registry.handles {
          assert forall i, t: nat :: HolderOf(Step(s, e), i, t) <==> HolderOf(s, i, t);
        }
      case DropHandle(t) => if t < |s.tasks| && s.tasks[t].phase.Returned? { DropKeepsHandles(s, t); }
      case _ =>
        forall id, t: nat ensures HolderOf(Step(s, e), id, t) <==> HolderOf(s, id, t) {
        }
        SameHolders(s, Step(s, e));
    }
  }

  /**
   In every run, disciplined or not, a task that has not been told to stop and has not dropped its
   handle can be stopped: its handle is in the registry, and no other task's is there for the id.
   */
  lemma {:induction false} NoTaskIsOrphaned(events: seq<Event>)
    ensures HandlesExact(Run(events))
  {
    if events != [] {
      NoTaskIsOrphaned(events[..|events| - 1]);
      HandlesStep(Run(events[..|events| - 1]), events[|events| - 1]);
    }
  }

  /** A task's completion takes the handle of another task of the id. */
  predicate StealsHandle(s: State, e: Event, id: TunnelId) {
    && e.DropHandle? && e.task < |s.tasks| && s.tasks[e.task].phase.Returned? && s.tasks[e.task].id == id
    && id in s.registry.handles && s.registry.handles[id] != e.task
  }

  /** A holder stops being one exactly by a stop, by its own completion, or by another task's. */
  lemma HandleIsLostIff(events: seq<Event>, e: Event, id: TunnelId, t: nat)
    requires HolderOf(Run(events), id, t)
    ensures !HolderOf(Step(Run(events), e), id, t)
            <==> || e == Stop(id)
                 || (e == DropHandle(t) && Run(events).tasks[t].phase.Returned?)
                 || StealsHandle(Run(events), e, id)
  {
    NoTaskIsOrphaned(events);
  }

  predicate IsTraffic(e: Event) {
    e.Accept? || e.OpenConnection? || e.CloseConnection? || e.ConnectionError? || e.BytesIn? || e.BytesOut?
  }

  /** Traffic changes no task, no handle and no status, and adds or removes no snapshot. */
  lemma TrafficIsHarmless(s: State, e: Event)
    requires IsTraffic(e)
    ensures var s' := Step(s, e);
            && s'.tasks == s.tasks && s'.registry.handles == s.registry.handles
            && s'.registry.snapshots.Keys == s.registry.snapshots.Keys
            && forall id | id in s.registry.snapshots ::
                 && s'.registry.snapshots[id].status == s.registry.snapshots[id].status
                 && (s.registry.snapshots[id].lastError.Some? ==> s'.registry.snapshots[id].lastError.Some?)
  {
  }

  /** What one event does to the snapshot of an id. */
  ghost predicate SnapshotKept(s: State, s': State, id: TunnelId) {
    && (id in s'.registry.snapshots ==> id in s.registry.snapshots)
    && (id in s'.registry.snapshots && id in s.registry.snapshots ==>
          && s'.registry.snapshots[id].status == s.registry.snapshots[id].status
          && (s.registry.snapshots[id].lastError.Some? ==> s'.registry.snapshots[id].lastError.Some?))
  }

  /** The task an event is about, if it is one of a task of the id. */
  predicate TaskEvent(s: State, e: Event, id: TunnelId) {
    (e.BecomeRunning? || e.Settle?) && e.task < |s.tasks| && s.tasks[e.task].id == id && Live(s.tasks[e.task])
  }

  /** Only a start of the id, and its tasks becoming running or settling, show it anew or differently. */
  lemma SnapshotStep(s: State, e: Event, id: TunnelId)
    requires !(e.Start? && e.request.id == id) && !TaskEvent(s, e, id)
    ensures SnapshotKept(s, Step(s, e), id)
  {
    if IsTraffic(e) {
      TrafficIsHarmless(s, e);
    }
  }

  /** Tasks come with starts, go by settling, and otherwise stay live. */
  lemma LiveStep(s: State, e: Event, id: TunnelId, t: nat)
    ensures LiveTaskOf(Step(s, e), id, t) <==>
              || (LiveTaskOf(s, id, t) && !(e == Settle(t) && s.tasks[t].phase.Unhandled?))
              || (e.Start? && StartAccepted(s, e.request) && e.request.id == id && t == |s.tasks|)
  {
  }

  /** Without a live task there is no handle, and only a failed snapshot, with its error, may be left. */
  ghost predicate CleanIfQuiet(s: State, id: TunnelId) {
    !HasLiveTask(s, id) ==>
      && id !in s.registry.handles
      && (id in s.registry.snapshots ==>
            s.registry.snapshots[id].status.Failed? && s.registry.snapshots[id].lastError.Some?)
  }

  lemma QuietStep(s: State, e: Event, id: TunnelId)
    requires HandlesExact(s) && CleanIfQuiet(s, id)
    ensures CleanIfQuiet(Step(s, e), id)
  {
    var s' := Step(s, e);
    HandlesStep(s, e);
    if !HasLiveTask(s', id) {
      assert forall t: nat :: !LiveTaskOf(s', id, t);
      assert id in s'.registry.handles ==> LiveTaskOf(s', id, s'.registry.handles[id]);
      LiveStep(s, e, id, |s.tasks|);
      if HasLiveTask(s, id) {
        var t: nat :| LiveTaskOf(s, id, t);
        LiveStep(s, e, id, t);
      } else {
        assert TaskEvent(s, e, id) ==> LiveTaskOf(s, id, e.task);
        if !(e.Start? && e.request.id == id) { SnapshotStep(s, e, id); }
      }
    }
  }

  /** Over every run, disciplined or not, a tunnel without a live task is clean. */
  lemma {:induction false} QuietTunnelIsClean(events: seq<Event>, id: TunnelId)
    ensures CleanIfQuiet(Run(events), id)
  {
    if events != [] {
      QuietTunnelIsClean(events[..|events| - 1], id);
      NoTaskIsOrphaned(events[..|events| - 1]);
      QuietStep(Run(events[..|events| - 1]), events[|events| - 1], id);
    }
  }

  // ---- Over disciplined runs ----

  ghost predicate OneLiveTask(s: State, id: TunnelId) {
    forall t: nat, u: nat | LiveTaskOf(s, id, t) && LiveTaskOf(s, id, u) :: t == u
  }

  ghost predicate StatusOk(s: State, id: TunnelId) {
    forall t: nat | LiveTaskOf(s, id, t) && id in s.registry.snapshots ::
      StatusFits(s.tasks[t].phase, s.registry.snapshots[id].status)
  }

  /** With a handle the tunnel is shown; it has at most one live task, and its status fits that task. */
  ghost predicate Owned(s: State, id: TunnelId) {
    (id in s.registry.handles ==> id in s.registry.snapshots) && OneLiveTask(s, id) && StatusOk(s, id)
  }

  lemma StartKeepsOwned(s: State, request: Request, id: TunnelId)
    requires HandlesExact(s) && Owned(s, id) && Disciplined(s, Start(request), id)
    ensures Owned(StartStep(s, request), id)
  {
    var s' := StartStep(s, request);
    forall t: nat ensures LiveTaskOf(s', id, t) ==> LiveTaskOf(s, id, t) || (request.id == id && t == |s.tasks|) {
      LiveStep(s, Start(request), id, t);
    }
    assert forall t: nat | LiveTaskOf(s, id, t) :: s'.tasks[t] == s.tasks[t];
  }

  lemma StopKeepsOwned(s: State, i: TunnelId, id: TunnelId)
    requires HandlesExact(s) && Owned(s, id)
    ensures Owned(StopStep(s, i), id)
  {
    var s' := StopStep(s, i);
    forall t: nat | LiveTaskOf(s', id, t) ensures LiveTaskOf(s, id, t) && s'.tasks[t].phase == s.tasks[t].phase {
      LiveStep(s, Stop(i), id, t);
    }
    SnapshotStep(s, Stop(i), id);
  }

  lemma DropKeepsOwned(s: State, t: nat, id: TunnelId)
    requires HandlesExact(s) && Owned(s, id) && t < |s.tasks| && s.tasks[t].phase.Returned?
    ensures Owned(DropHandleStep(s, t), id)
  {
    var s' := DropHandleStep(s, t);
    forall u: nat | LiveTaskOf(s', id, u)
      ensures LiveTaskOf(s, id, u) && (s'.tasks[u].phase == s.tasks[u].phase || u == t)
    {
      LiveStep(s, DropHandle(t), id, u);
    }
    SnapshotStep(s, DropHandle(t), id);
  }

  lemma SettleKeepsOwned(s: State, t: nat, id: TunnelId)
    requires HandlesExact(s) && Owned(s, id) && t < |s.tasks| && s.tasks[t].phase.Unhandled?
    ensures Owned(SettleStep(s, t), id)
  {
    var s' := SettleStep(s, t);
    forall u: nat | LiveTaskOf(s', id, u) ensures LiveTaskOf(s, id, u) && u != t && s'.tasks[u] == s.tasks[u] {
      LiveStep(s, Settle(t), id, u);
    }
    if s.tasks[t].id == id {
      assert LiveTaskOf(s, id, t);
      assert id in s.registry.handles ==> LiveTaskOf(s, id, s.registry.handles[id]);
    } else {
      SnapshotStep(s, Settle(t), id);
    }
  }

  lemma WorkKeepsOwned(s: State, e: Event, id: TunnelId)
    requires HandlesExact(s) && Owned(s, id) && (e.BecomeRunning? || e.Return?)
    ensures Owned(Step(s, e), id)
  {
    var s' := Step(s, e);
    forall u: nat | LiveTaskOf(s', id, u)
      ensures LiveTaskOf(s, id, u) && (s'.tasks[u] == s.tasks[u] || u == e.task)
    {
      LiveStep(s, e, id, u);
    }
    if TaskEvent(s, e, id) {
      assert LiveTaskOf(s, id, e.task);
    } else {
      SnapshotStep(s, e, id);
    }
  }

  lemma TrafficKeepsOwned(s: State, e: Event, id: TunnelId)
    requires Owned(s, id) && IsTraffic(e)
    ensures Owned(Step(s, e), id)
  {
    TrafficIsHarmless(s, e);
    assert forall t: nat :: LiveTaskOf(Step(s, e), id, t) == LiveTaskOf(s, id, t);
  }

  lemma OwnedStep(s: State, e: Event, id: TunnelId)
    requires HandlesExact(s) && Owned(s, id) && Disciplined(s, e, id)
    ensures Owned(Step(s, e), id)
  {
    match e {
      case Start(request) => StartKeepsOwned(s, request, id);
      case Stop(i) => StopKeepsOwned(s, i, id);
      case BecomeRunning(_, _, _) => WorkKeepsOwned(s, e, id);
      case Return(_, _) => WorkKeepsOwned(s, e, id);
      case DropHandle(t) => if t < |s.tasks| && s.tasks[t].phase.Returned? { DropKeepsOwned(s, t, id); }
      case Settle(t) => if t < |s.tasks| && s.tasks[t].phase.Unhandled? { SettleKeepsOwned(s, t, id); }
      case _ => TrafficKeepsOwned(s, e, id);
    }
  }

  /** A tunnel whose own starts are disciplined is well owned, whatever is done to others. */
  lemma {:induction false} DisciplinedRunsAreOwned(events: seq<Event>, id: TunnelId)
    requires DisciplinedRun(events, id)
    ensures Owned(Run(events), id)
  {
    if events != [] {
      DisciplinedRunsAreOwned(events[..|events| - 1], id);
      NoTaskIsOrphaned(events[..|events| - 1]);
      OwnedStep(Run(events[..|events| - 1]), events[|events| - 1], id);
    }
  }

  predicate StatusMayMove(from: Status, to: Status) {
    from == to || from.Starting? || to.Failed?
  }

  /** Within one start the status only moves Starting, Running, Failed, possibly skipping Running. */
  lemma StatusMovesForward(events: seq<Event>, e: Event, id: TunnelId)
    requires DisciplinedRun(events, id) && !(e.Start? && e.request.id == id)
    requires id in Run(events).registry.snapshots && id in Step(Run(events), e).registry.snapshots
    ensures StatusMayMove(Run(events).registry.snapshots[id].status,
                          Step(Run(events), e).registry.snapshots[id].status)
  {
    var s := Run(events);
    DisciplinedRunsAreOwned(events, id);
    if TaskEvent(s, e, id) {
      assert LiveTaskOf(s, id, e.task);
    } else {
      SnapshotStep(s, e, id);
    }
  }

  // ---- Without the discipline ----

  /** A tunnel that nobody stopped is shown, with a status that fits. */
  ghost predicate HoldersShown(s: State) {
    forall id, t: nat | HolderOf(s, id, t) ::
      id in s.registry.snapshots && StatusFits(s.tasks[t].phase, s.registry.snapshots[id].status)
  }

  /**
   An earlier task of the id settles while another one holds the handle, which removes the snapshot
   or marks it failed; or it becomes running while the other one is still connecting.
   */
  ghost predicate Interferes(s: State, e: Event) {
    match e
    case Settle(t) =>
      t < |s.tasks| && s.tasks[t].phase.Unhandled? && exists u: nat :: HolderOf(s, s.tasks[t].id, u)
    case BecomeRunning(t, _, _) =>
      && t < |s.tasks| && s.tasks[t].phase.Connecting?
      && exists u: nat :: u != t && HolderOf(s, s.tasks[t].id, u) && s.tasks[u].phase.Connecting?
    case _ => false
  }

  ghost predicate ShownThroughout(events: seq<Event>) {
    HoldersShown(Run(events)) && (events != [] ==> ShownThroughout(events[..|events| - 1]))
  }

  ghost predicate Peaceful(events: seq<Event>) {
    events != [] ==>
      && Peaceful(events[..|events| - 1])
      && !Interferes(Run(events[..|events| - 1]), events[|events| - 1])
  }

  lemma SettleShownIff(s: State, t: nat)
    requires HandlesExact(s) && HoldersShown(s) && t < |s.tasks| && s.tasks[t].phase.Unhandled?
    ensures HoldersShown(SettleStep(s, t)) <==> !Interferes(s, Settle(t))
  {
    var s' := SettleStep(s, t);
    assert forall id, u: nat :: HolderOf(s', id, u) <==> HolderOf(s, id, u);
    if Interferes(s, Settle(t)) {
      var u: nat :| HolderOf(s, s.tasks[t].id, u);
      assert HolderOf(s', s.tasks[t].id, u);
    }
  }

  lemma RunningShownIff(s: State, t: nat, port: nat, now: int)
    requires HandlesExact(s) && HoldersShown(s) && t < |s.tasks| && s.tasks[t].phase.Connecting?
    ensures HoldersShown(Step(s, BecomeRunning(t, port, now))) <==> !Interferes(s, BecomeRunning(t, port, now))
  {
    var s' := Step(s, BecomeRunning(t, port, now));
    assert forall id, u: nat :: HolderOf(s', id, u) <==> HolderOf(s, id, u);
    if Interferes(s, BecomeRunning(t, port, now)) {
      var u: nat :| u != t && HolderOf(s, s.tasks[t].id, u) && s.tasks[u].phase.Connecting?;
      assert HolderOf(s', s.tasks[t].id, u);
    }
  }

  lemma ControlKeepsShown(s: State, e: Event)
    requires HandlesExact(s) && HoldersShown(s) && (e.Start? || e.Stop? || e.Return? || e.DropHandle?)
    ensures HoldersShown(Step(s, e))
  {
    var s' := Step(s, e);
    match e {
      case Start(request) =>
        forall id, t: nat | HolderOf(s', id, t)
          ensures HolderOf(s, id, t) || (s' != s && id == request.id && t == |s.tasks|) {
        }
      case Stop(id) =>
        RemovalKeepsHandles(s, id);
        assert id !in s.registry.handles ==> forall t: nat :: !HolderOf(s, id, t);
      case Return(_, _) =>
        assert forall id, t: nat :: HolderOf(s', id, t) <==> HolderOf(s, id, t);
      case DropHandle(t) =>
        forall id, u: nat | HolderOf(s', id, u) ensures HolderOf(s, id, u) && s'.tasks[u] == s.tasks[u] {
        }
    }
  }

  lemma ShownStep(s: State, e: Event)
    requires HandlesExact(s) && HoldersShown(s)
    ensures HoldersShown(Step(s, e)) <==> !Interferes(s, e)
  {
    match e {
      case Settle(t) => if t < |s.tasks| && s.tasks[t].phase.Unhandled? { SettleShownIff(s, t); }
      case BecomeRunning(t, port, now) =>
        if t < |s.tasks| && s.tasks[t].phase.Connecting? { RunningShownIff(s, t, port, now); }
      case Start(_) => ControlKeepsShown(s, e);
      case Stop(_) => ControlKeepsShown(s, e);
      case Return(_, _) => ControlKeepsShown(s, e);
      case DropHandle(_) => ControlKeepsShown(s, e);
      case _ =>
        TrafficIsHarmless(s, e);
        assert forall id, t: nat :: HolderOf(Step(s, e), id, t) <==> HolderOf(s, id, t);
    }
  }

  /** Over every run: tunnels that nobody stopped are always shown rightly exactly when no event interferes. */
  lemma {:induction false} ShownIffPeaceful(events: seq<Event>)
    ensures ShownThroughout(events) <==> Peaceful(events)
  {
    if events != [] {
      var init, e := events[..|events| - 1], events[|events| - 1];
      ShownIffPeaceful(init);
      NoTaskIsOrphaned(init);
      if ShownThroughout(init) {
        ShownStep(Run(init), e);
      }
    }
  }

  /** The events that let a stopped or finished task come to its end. */
  function ToTheEnd(task: Task, t: nat): seq<Event> {
    match task.phase
    case Connecting => [BecomeRunning(t, 0, 0), Return(t, Completed), DropHandle(t), Settle(t)]
    case Forwarding => [Return(t, Completed), DropHandle(t), Settle(t)]
    case Returned(_) => [DropHandle(t), Settle(t)]
    case Unhandled(_) => [Settle(t)]
    case Done => []
  }

  /** The task is at work, but told to stop, or its tunnel is not shown or shown as failed. */
  predicate Harmed(s: State, id: TunnelId, t: nat) {
    && t < |s.tasks| && s.tasks[t].id == id && (s.tasks[t].phase.Connecting? || s.tasks[t].phase.Forwarding?)
    && (s.tasks[t].stopRequested || id !in s.registry.snapshots || s.registry.snapshots[id].status.Failed?)
  }

  /** A task of the id whose own handle is gone, next to one that is still connecting and holds the handle. */
  ghost predicate Overtaken(s: State, id: TunnelId, t: nat, n: nat) {
    && HandlesExact(s) && t != n && LiveTaskOf(s, id, t) && !HolderOf(s, id, t)
    && HolderOf(s, id, n) && s.tasks[n].phase.Connecting?
  }

  lemma UnhandledEndHarms(s: State, id: TunnelId, t: nat, n: nat)
    requires t != n && LiveTaskOf(s, id, t) && s.tasks[t].phase.Unhandled?
    requires n < |s.tasks| && s.tasks[n].id == id && s.tasks[n].phase.Connecting?
    ensures Harmed(RunFrom(s, [Settle(t)]), id, n)
    ensures RunFrom(s, [Settle(t)]).tasks[n] == s.tasks[n]
  {
    RunFromCons(s, Settle(t), []);
    assert [Settle(t)] + [] == [Settle(t)];
  }

  lemma ReturnedEndHarms(s: State, id: TunnelId, t: nat, n: nat)
    requires Overtaken(s, id, t, n) && s.tasks[t].phase.Returned?
    ensures var s' := RunFrom(s, [DropHandle(t), Settle(t)]);
            Harmed(s', id, n) && s'.tasks[n].stopRequested
  {
    var r := DropHandleStep(s, t);
    RunFromCons(s, DropHandle(t), [Settle(t)]);
    assert [DropHandle(t)] + [Settle(t)] == [DropHandle(t), Settle(t)];
    assert r.tasks[n] == s.tasks[n].(stopRequested := true);
    UnhandledEndHarms(r, id, t, n);
  }

  lemma ForwardingEndHarms(s: State, id: TunnelId, t: nat, n: nat)
    requires Overtaken(s, id, t, n) && s.tasks[t].phase.Forwarding?
    ensures var s' := RunFrom(s, [Return(t, Completed), DropHandle(t), Settle(t)]);
            Harmed(s', id, n) && s'.tasks[n].stopRequested
  {
    var r := Step(s, Return(t, Completed));
    RunFromCons(s, Return(t, Completed), [DropHandle(t), Settle(t)]);
    assert [Return(t, Completed)] + [DropHandle(t), Settle(t)] == [Return(t, Completed), DropHandle(t), Settle(t)];
    HandlesStep(s, Return(t, Completed));
    ReturnedEndHarms(r, id, t, n);
  }

  lemma ConnectingEndHarms(s: State, id: TunnelId, t: nat, n: nat)
    requires Overtaken(s, id, t, n) && s.tasks[t].phase.Connecting?
    ensures var s' := RunFrom(s, ToTheEnd(s.tasks[t], t));
            Harmed(s', id, n) && s'.tasks[n].stopRequested
  {
    var rest := [Return(t, Completed), DropHandle(t), Settle(t)];
    var r := Step(s, BecomeRunning(t, 0, 0));
    RunFromCons(s, BecomeRunning(t, 0, 0), rest);
    assert [BecomeRunning(t, 0, 0)] + rest == ToTheEnd(s.tasks[t], t);
    HandlesStep(s, BecomeRunning(t, 0, 0));
    ForwardingEndHarms(r, id, t, n);
  }

  /**
   A start that is accepted while an earlier task of the id is unfinished: when that task ends, the
   new one is told to stop unless the old one had dropped the handle before, and the new tunnel,
   though at work, is not shown or shown as failed.
   */
  lemma EarlierTaskHarmsLater(s: State, request: Request, t: nat)
    requires HandlesExact(s) && StartAccepted(s, request) && LiveTaskOf(s, request.id, t)
    ensures var s' := RunFrom(s, [Start(request)] + ToTheEnd(s.tasks[t], t));
            && Harmed(s', request.id, |s.tasks|)
            && (s'.tasks[|s.tasks|].stopRequested <==> !s.tasks[t].phase.Unhandled?)
  {
    var s1, id, n := Step(s, Start(request)), request.id, |s.tasks|;
    RunFromCons(s, Start(request), ToTheEnd(s.tasks[t], t));
    StartKeepsHandles(s, request);
    assert HolderOf(s1, id, n) && LiveTaskOf(s1, id, t);
    match s.tasks[t].phase {
      case Connecting => ConnectingEndHarms(s1, id, t, n);
      case Forwarding => ForwardingEndHarms(s1, id, t, n);
      case Returned(_) => ReturnedEndHarms(s1, id, t, n);
      case Unhandled(_) => UnhandledEndHarms(s1, id, t, n);
    }
  }

  /** Nobody stops the tunnel. */
  ghost predicate NeverStopped(events: seq<Event>, id: TunnelId) {
    forall i | 0 <= i < |events| :: events[i] != Stop(id)
  }

  lemma EndNeverStops(task: Task, t: nat, id: TunnelId)
    ensures NeverStopped(ToTheEnd(task, t), id)
  {
  }

  predicate Working(s: State, n: nat) {
    n < |s.tasks| && (s.tasks[n].phase.Connecting? || s.tasks[n].phase.Forwarding?)
  }

  /** The task holds the handle, is the only live one of its id, and its tunnel is shown and not failed. */
  ghost predicate Undisputed(s: State, id: TunnelId, n: nat) {
    && HolderOf(s, id, n)
    && (forall t: nat | LiveTaskOf(s, id, t) :: t == n)
    && id in s.registry.snapshots && !s.registry.snapshots[id].status.Failed?
  }

  /** As long as the task is at work, it is undisputed. */
  ghost predicate Unharmed(s: State, id: TunnelId, n: nat) {
    HandlesExact(s) && n < |s.tasks| && s.tasks[n].id == id && (Working(s, n) ==> Undisputed(s, id, n))
  }

  /** A task at work was at work before. */
  lemma WorkContinues(s: State, e: Event, n: nat)
    requires n < |s.tasks| && Working(Step(s, e), n)
    ensures Working(s, n) && n < |s.tasks| <= |Step(s, e).tasks| && Step(s, e).tasks[n].id == s.tasks[n].id
  {
  }

  lemma OnlyTaskStays(s: State, e: Event, id: TunnelId, n: nat)
    requires HandlesExact(s) && Undisputed(s, id, n) && Working(Step(s, e), n)
    ensures forall t: nat | LiveTaskOf(Step(s, e), id, t) :: t == n
  {
    forall t: nat | LiveTaskOf(Step(s, e), id, t) ensures t == n {
      LiveStep(s, e, id, t);
    }
  }

  lemma HolderStays(s: State, e: Event, id: TunnelId, n: nat)
    requires HandlesExact(s) && Undisputed(s, id, n) && Working(Step(s, e), n) && e != Stop(id)
    ensures HolderOf(Step(s, e), id, n)
  {
    if e.DropHandle? && e.task < |s.tasks| && s.tasks[e.task].phase.Returned? {
      assert LiveTaskOf(s, s.tasks[e.task].id, e.task);
    }
  }

  lemma StaysShown(s: State, e: Event, id: TunnelId, n: nat)
    requires HandlesExact(s) && Undisputed(s, id, n) && Working(Step(s, e), n) && e != Stop(id)
    ensures id in Step(s, e).registry.snapshots && !Step(s, e).registry.snapshots[id].status.Failed?
  {
    var s' := Step(s, e);
    if e.Settle? && e.task < |s.tasks| && s.tasks[e.task].phase.Unhandled? {
      assert LiveTaskOf(s, s.tasks[e.task].id, e.task);
    } else if IsTraffic(e) {
      TrafficIsHarmless(s, e);
    }
  }

  lemma UnharmedStep(s: State, e: Event, id: TunnelId, n: nat)
    requires Unharmed(s, id, n) && e != Stop(id)
    ensures Unharmed(Step(s, e), id, n)
  {
    HandlesStep(s, e);
    if Working(Step(s, e), n) {
      WorkContinues(s, e, n);
      OnlyTaskStays(s, e, id, n);
      HolderStays(s, e, id, n);
      StaysShown(s, e, id, n);
    }
  }

  lemma {:induction false} UnharmedRun(s: State, events: seq<Event>, id: TunnelId, n: nat)
    requires Unharmed(s, id, n) && NeverStopped(events, id)
    ensures Unharmed(RunFrom(s, events), id, n)
  {
    if events != [] {
      UnharmedRun(s, events[..|events| - 1], id, n);
      UnharmedStep(RunFrom(s, events[..|events| - 1]), events[|events| - 1], id, n);
    }
  }

  /** Some course of events in which nobody stops this tunnel harms the new task. */
  ghost predicate MayBeHarmed(s: State, id: TunnelId, n: nat) {
    exists more :: NeverStopped(more, id) && Harmed(RunFrom(s, more), id, n)
  }

  lemma QuietStartIsUnharmed(s: State, request: Request)
    requires HandlesExact(s) && StartAccepted(s, request) && !HasLiveTask(s, request.id)
    ensures Unharmed(Step(s, Start(request)), request.id, |s.tasks|)
  {
    var s', n := Step(s, Start(request)), |s.tasks|;
    HandlesStep(s, Start(request));
    forall t: nat | LiveTaskOf(s', request.id, t) ensures t == n {
      LiveStep(s, Start(request), request.id, t);
    }
  }

  /**
   After any run at all, an accepted start can be harmed, although nobody stops it and whatever else is
   started, exactly when an earlier task of the id is unfinished: a start needs the discipline for
   itself, and needs nothing more.
   */
  lemma StartIsSafeIffDisciplined(events: seq<Event>, request: Request)
    requires StartAccepted(Run(events), request)
    ensures MayBeHarmed(Step(Run(events), Start(request)), request.id, |Run(events).tasks|)
            <==> HasLiveTask(Run(events), request.id)
  {
    var s, id, n := Run(events), request.id, |Run(events).tasks|;
    var s1 := Step(s, Start(request));
    NoTaskIsOrphaned(events);
    if HasLiveTask(s, id) {
      var t: nat :| LiveTaskOf(s, id, t);
      var more := ToTheEnd(s.tasks[t], t);
      EarlierTaskHarmsLater(s, request, t);
      RunFromCons(s, Start(request), more);
      EndNeverStops(s.tasks[t], t, id);
      assert NeverStopped(more, id) && Harmed(RunFrom(s1, more), id, n);
    } else {
      QuietStartIsUnharmed(s, request);
      forall more | NeverStopped(more, id) ensures !Harmed(RunFrom(s1, more), id, n) {
        UnharmedRun(s1, more, id, n);
      }
    }
  }

  lemma StoppedAndRestarted(request: Request, port: nat, now: int)
    requires request.authMethods != 0
    ensures var s := Run([Start(request), BecomeRunning(0, port, now), Stop(request.id), Start(request)]);
            && s.tasks == [Task(request.id, Forwarding, true), Task(request.id, Connecting, false)]
            && s.registry.handles == map[request.id := 1]
  {
    var id := request.id;
    var rest := [BecomeRunning(0, port, now), Stop(id), Start(request)];
    RunFromCons(Init(), Start(request), rest);
    RunThree(Step(Init(), Start(request)), BecomeRunning(0, port, now), Stop(id), Start(request));
    assert [Start(request)] + rest == [Start(request), BecomeRunning(0, port, now), Stop(id), Start(request)];
  }

  lemma OldTaskEnds(s: State, id: TunnelId)
    requires s.tasks == [Task(id, Forwarding, true), Task(id, Connecting, false)] && s.registry.handles == map[id := 1]
    ensures var s' := RunFrom(s, [Return(0, Completed), DropHandle(0), Settle(0)]);
            && s'.tasks == [Task(id, Done, true), Task(id, Connecting, true)]
            && id !in s'.registry.handles && id !in s'.registry.snapshots
  {
    RunThree(s, Return(0, Completed), DropHandle(0), Settle(0));
  }

  /** Stop, then start before the old task has ended: the new tunnel is told to stop and is not shown. */
  lemma RestartIsCancelled(request: Request, port: nat, now: int)
    requires request.authMethods != 0
    ensures var s := Run([Start(request), BecomeRunning(0, port, now), Stop(request.id), Start(request)]
                         + [Return(0, Completed), DropHandle(0), Settle(0)]);
            && s.tasks == [Task(request.id, Done, true), Task(request.id, Connecting, true)]
            && request.id !in s.registry.handles && request.id !in s.registry.snapshots
  {
    var first := [Start(request), BecomeRunning(0, port, now), Stop(request.id), Start(request)];
    StoppedAndRestarted(request, port, now);
    RunFromAppend(Init(), first, [Return(0, Completed), DropHandle(0), Settle(0)]);
    OldTaskEnds(Run(first), request.id);
  }

  lemma RunThree(s: State, a: Event, b: Event, c: Event)
    ensures RunFrom(s, [a, b, c]) == Step(Step(Step(s, a), b), c)
  {
    RunFromCons(s, a, [b, c]);
    RunFromCons(Step(s, a), b, [c]);
    RunFromCons(Step(Step(s, a), b), c, []);
    assert [a] + [b, c] == [a, b, c] && [b] + [c] == [b, c] && [c] + [] == [c];
  }
}
