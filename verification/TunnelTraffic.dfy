/** Connection counts and byte counters, over every interleaving of the tunnel tasks. */
module TunnelTraffic {
  import opened Tunnels

  /** Connection tasks of `id` that are open, or open and part of the current count. */
  function OpenTasks(connections: seq<Connection>, id: TunnelId, countedOnly: bool): nat {
    if connections == [] then 0 else
      var c := connections[|connections| - 1];
      OpenTasks(connections[..|connections| - 1], id, countedOnly)
      + (if c.id == id && c.stage.Opened? && (countedOnly ==> c.counted) then 1 else 0)
  }

  function Counts(c: Connection, id: TunnelId, countedOnly: bool): nat {
    if c.id == id && c.stage.Opened? && (countedOnly ==> c.counted) then 1 else 0
  }

  lemma {:induction false} OpenTasksUpdate(
    connections: seq<Connection>, k: nat, c: Connection, id: TunnelId, countedOnly: bool)
    requires k < |connections|
    ensures OpenTasks(connections[k := c], id, countedOnly)
         == OpenTasks(connections, id, countedOnly) - Counts(connections[k], id, countedOnly)
             + Counts(c, id, countedOnly)
    ensures OpenTasks(connections, id, countedOnly) >= Counts(connections[k], id, countedOnly)
  {
    var n := |connections| - 1;
    if k < n {
      OpenTasksUpdate(connections[..n], k, c, id, countedOnly);
      assert connections[k := c][..n] == connections[..n][k := c];
    } else {
      assert connections[k := c][..n] == connections[..n];
    }
  }

  lemma OpenTasksSnoc(connections: seq<Connection>, c: Connection, id: TunnelId, countedOnly: bool)
    ensures OpenTasks(connections + [c], id, countedOnly)
         == OpenTasks(connections, id, countedOnly) + Counts(c, id, countedOnly)
  {
    assert (connections + [c])[..|connections|] == connections;
  }

  /** After a reset no open task of `id` is counted; other tunnels are untouched. */
  lemma {:induction false} OpenTasksUncount(connections: seq<Connection>, reset: TunnelId, id: TunnelId)
    ensures OpenTasks(Uncount(connections, reset), id, false) == OpenTasks(connections, id, false)
    ensures OpenTasks(Uncount(connections, reset), id, true)
            == if id == reset then 0 else OpenTasks(connections, id, true)
  {
    if connections != [] {
      var n := |connections| - 1;
      OpenTasksUncount(connections[..n], reset, id);
      assert Uncount(connections, reset)[..n] == Uncount(connections[..n], reset);
    }
  }

  lemma {:induction false} CountedAreOpen(connections: seq<Connection>, id: TunnelId)
    ensures OpenTasks(connections, id, true) <= OpenTasks(connections, id, false)
  {
    if connections != [] {
      CountedAreOpen(connections[..|connections| - 1], id);
    }
  }

  /** The opened-but-not-closed connection tasks of `id`, and those of them opened since the last reset. */
  function OpenOf(s: State, id: TunnelId): nat {
    OpenTasks(s.connections, id, false)
  }

  function CountedOf(s: State, id: TunnelId): nat {
    OpenTasks(s.connections, id, true)
  }

  predicate Listed(s: State, id: TunnelId) {
    id in s.registry.snapshots
  }

  function ActiveOf(s: State, id: TunnelId): nat
    requires Listed(s, id)
  {
    s.registry.snapshots[id].activeConnections
  }

  /** Both sides of the count of `id` as they were. */
  ghost predicate SameCount(s: State, s': State, id: TunnelId)
    requires Listed(s, id) && Listed(s', id)
  {
    ActiveOf(s', id) == ActiveOf(s, id) && CountedOf(s', id) == CountedOf(s, id)
  }

  ghost predicate EmptyCount(s: State, id: TunnelId)
    requires Listed(s, id)
  {
    ActiveOf(s, id) == 0 && CountedOf(s, id) == 0
  }

  predicate ConnectionOf(s: State, k: nat, stage: Stage, id: TunnelId) {
    AtStage(s, k, stage) && s.connections[k].id == id
  }

  lemma OpenStep(s: State, k: nat, id: TunnelId)
    requires Listed(s, id)
    ensures var s' := Step(s, OpenConnection(k));
            if ConnectionOf(s, k, Spawned, id) then
              ActiveOf(s', id) == Saturate(USIZE_MAX, ActiveOf(s, id) + 1) && CountedOf(s', id) == CountedOf(s, id) + 1
            else SameCount(s, s', id)
  {
    if AtStage(s, k, Spawned) {
      var i := s.connections[k].id;
      OpenTasksUpdate(s.connections, k, Connection(i, Opened, i in s.registry.snapshots), id, true);
    }
  }

  lemma CloseStep(s: State, k: nat, id: TunnelId)
    requires Listed(s, id)
    ensures var s' := Step(s, CloseConnection(k));
            if ConnectionOf(s, k, Opened, id) then
              && ActiveOf(s', id) == (if ActiveOf(s, id) == 0 then 0 else ActiveOf(s, id) - 1)
              && CountedOf(s, id) >= (if s.connections[k].counted then 1 else 0)
              && CountedOf(s', id) == CountedOf(s, id) - (if s.connections[k].counted then 1 else 0)
            else SameCount(s, s', id)
  {
    if AtStage(s, k, Opened) {
      OpenTasksUpdate(s.connections, k, s.connections[k].(stage := Closed), id, true);
    }
  }

  /** Every other event leaves the count alone or resets it. */
  lemma OtherStep(s: State, e: Event, id: TunnelId)
    requires Listed(s, id) && Listed(Step(s, e), id) && !e.OpenConnection? && !e.CloseConnection?
    ensures EmptyCount(Step(s, e), id) || SameCount(s, Step(s, e), id)
  {
    match e {
      case Start(request) => OpenTasksUncount(s.connections, request.id, id);
      case Stop(i) => OpenTasksUncount(s.connections, i, id);
      case Settle(t) =>
        if t < |s.tasks| { OpenTasksUncount(s.connections, s.tasks[t].id, id); }
      case Accept(t) =>
        if t < |s.tasks| { OpenTasksSnoc(s.connections, Connection(s.tasks[t].id, Spawned, false), id, true); }
      case _ =>
    }
  }

  /** A snapshot that appears does so with an empty count. */
  lemma CountAppears(s: State, e: Event, id: TunnelId)
    requires !Listed(s, id) && Listed(Step(s, e), id)
    ensures e.Start? && e.request.id == id
    ensures ActiveOf(Step(s, e), id) == 0 && CountedOf(Step(s, e), id) == 0
  {
    if e.Start? {
      OpenTasksUncount(s.connections, e.request.id, id);
    }
  }

  /** In every interleaving the shown count never exceeds the connection tasks that are open. */
  lemma {:induction false} CountNeverExceedsOpenTasks(events: seq<Event>, id: TunnelId)
    requires Listed(Run(events), id)
    ensures ActiveOf(Run(events), id) <= CountedOf(Run(events), id) <= OpenOf(Run(events), id)
  {
    CountedAreOpen(Run(events).connections, id);
    var n := |events|;
    assert n != 0;
    var s, e := Run(events[..n - 1]), events[n - 1];
    if Listed(s, id) {
      CountNeverExceedsOpenTasks(events[..n - 1], id);
      match e {
        case OpenConnection(k) => OpenStep(s, k, id);
        case CloseConnection(k) => CloseStep(s, k, id);
        case _ => OtherStep(s, e, id);
      }
    } else {
      CountAppears(s, e, id);
    }
  }

  /**
   What makes the count of a listed tunnel fall behind: a connection from before the last reset
   closes while one from after it is open, or a connection opens when the counter is full.
   */
  predicate Disturbs(s: State, e: Event, id: TunnelId) {
    && Listed(s, id)
    && match e
       case OpenConnection(k) => ConnectionOf(s, k, Spawned, id) && CountedOf(s, id) >= USIZE_MAX
       case CloseConnection(k) => ConnectionOf(s, k, Opened, id) && !s.connections[k].counted && CountedOf(s, id) != 0
       case _ => false
  }

  ghost predicate Undisturbed(events: seq<Event>, id: TunnelId) {
    events != [] ==>
      && Undisturbed(events[..|events| - 1], id)
      && !Disturbs(Run(events[..|events| - 1]), events[|events| - 1], id)
  }

  /**
   At every point of the run where the tunnel is listed, its count is that of the connections opened
   since the last reset.
   */
  ghost predicate ExactThroughout(events: seq<Event>, id: TunnelId) {
    && (Listed(Run(events), id) ==> ActiveOf(Run(events), id) == CountedOf(Run(events), id))
    && (events != [] ==> ExactThroughout(events[..|events| - 1], id))
  }

  /** From an exact state, one event keeps the count exact unless it disturbs it. */
  lemma ExactStep(s: State, e: Event, id: TunnelId)
    requires Listed(s, id) && Listed(Step(s, e), id) && ActiveOf(s, id) == CountedOf(s, id)
    ensures ActiveOf(Step(s, e), id) == CountedOf(Step(s, e), id) <==> !Disturbs(s, e, id)
  {
    match e {
      case OpenConnection(k) => OpenStep(s, k, id);
      case CloseConnection(k) => CloseStep(s, k, id);
      case _ => OtherStep(s, e, id);
    }
  }

  lemma DisturbanceKeepsListed(s: State, e: Event, id: TunnelId)
    requires Disturbs(s, e, id)
    ensures Listed(Step(s, e), id)
  {
  }

  /** Over every run, removals and restarts included, the count is exact throughout exactly when nothing disturbs it. */
  lemma {:induction false} CountExactIffUndisturbed(events: seq<Event>, id: TunnelId)
    ensures ExactThroughout(events, id) <==> Undisturbed(events, id)
  {
    if events != [] {
      var init, e := events[..|events| - 1], events[|events| - 1];
      var s := Run(init);
      CountExactIffUndisturbed(init, id);
      if Disturbs(s, e, id) { DisturbanceKeepsListed(s, e, id); }
      if Listed(Step(s, e), id) {
        if !Listed(s, id) {
          CountAppears(s, e, id);
        } else if ExactThroughout(init, id) {
          ExactStep(s, e, id);
        }
      }
    }
  }

  /**
   A failed tunnel is started again while a connection of the first run is still open, which then
   closes: the new connection is open, was opened after the reset, and is the only one open, yet the
   count is 0.
   */
  lemma StaleCloseHidesConnection(request: Request, error: string, port: nat, now: int)
    requires request.authMethods != 0
    ensures var id := request.id;
            var s := Run(FailedRun(request, error, port, now)
                         + [Start(request), BecomeRunning(1, port, now), Accept(1), OpenConnection(1),
                             CloseConnection(0)]);
            Listed(s, id) && ActiveOf(s, id) == 0 && OpenOf(s, id) == 1 && CountedOf(s, id) == 1
  {
    var id := request.id;
    var stale := [Connection(id, Opened, false)];
    var e0 := FailedRun(request, error, port, now);
    FailedRunEnds(request, error, port, now);
    var e1 := e0 + [Start(request)];
    var e2 := e1 + [BecomeRunning(1, port, now)];
    var e3 := e2 + [Accept(1)];
    var e4 := e3 + [OpenConnection(1)];
    var e5 := e4 + [CloseConnection(0)];
    assert e5 == e0 + [Start(request), BecomeRunning(1, port, now), Accept(1), OpenConnection(1), CloseConnection(0)];
    RunSnoc(e0, Start(request));
    assert Run(e1).connections == stale;
    RunSnoc(e1, BecomeRunning(1, port, now));
    RunSnoc(e2, Accept(1));
    assert Run(e3).connections == stale + [Connection(id, Spawned, false)];
    RunSnoc(e3, OpenConnection(1));
    assert Run(e4).connections == stale + [Connection(id, Opened, true)];
    RunSnoc(e4, CloseConnection(0));
    OnlyNewOpen(id);
    assert Run(e5).connections == [Connection(id, Closed, false)] + [Connection(id, Opened, true)];
  }

  /** A tunnel that ran, took a connection, and failed. */
  function FailedRun(request: Request, error: string, port: nat, now: int): seq<Event> {
    [Start(request), BecomeRunning(0, port, now), Accept(0), OpenConnection(0), Return(0, Errored(error)),
        DropHandle(0), Settle(0)]
  }

  lemma FailedRunEnds(request: Request, error: string, port: nat, now: int)
    requires request.authMethods != 0
    ensures var s := Run(FailedRun(request, error, port, now));
            && s.tasks == [Task(request.id, Done, true)]
            && s.connections == [Connection(request.id, Opened, false)]
            && request.id !in s.registry.handles
  {
    var id := request.id;
    var e1 := [Start(request)];
    var e2 := e1 + [BecomeRunning(0, port, now)];
    var e3 := e2 + [Accept(0)];
    var e4 := e3 + [OpenConnection(0)];
    var e5 := e4 + [Return(0, Errored(error))];
    var e6 := e5 + [DropHandle(0)];
    var e7 := e6 + [Settle(0)];
    assert e7 == FailedRun(request, error, port, now);
    RunSnoc([], Start(request));
    assert [] + [Start(request)] == e1;
    RunSnoc(e1, BecomeRunning(0, port, now));
    RunSnoc(e2, Accept(0));
    assert Run(e3).connections == [Connection(id, Spawned, false)];
    RunSnoc(e3, OpenConnection(0));
    RunSnoc(e4, Return(0, Errored(error)));
    assert Run(e5).tasks == [Task(id, Returned(Errored(error)), false)];
    RunSnoc(e5, DropHandle(0));
    RunSnoc(e6, Settle(0));
  }

  lemma OnlyNewOpen(id: TunnelId)
    ensures var last := [Connection(id, Closed, false)] + [Connection(id, Opened, true)];
            OpenTasks(last, id, true) == 1 && OpenTasks(last, id, false) == 1
  {
    forall countedOnly ensures OpenTasks([Connection(id, Closed, false)] + [Connection(id, Opened, true)], id,
        countedOnly) == 1 {
      OpenTasksSnoc([Connection(id, Closed, false)], Connection(id, Opened, true), id, countedOnly);
      OpenTasksSnoc([], Connection(id, Closed, false), id, countedOnly);
      assert [Connection(id, Closed, false)] == [] + [Connection(id, Closed, false)];
    }
  }

  lemma RunSnoc(events: seq<Event>, e: Event)
    ensures Run(events + [e]) == Step(Run(events), e)
  {
    assert (events + [e])[..|events|] == events;
  }

  // ---- Byte counters ----

  /** The amount an event records for `id` in one direction: what an open connection of it passed on. */
  function Recorded(s: State, e: Event, id: TunnelId, inward: bool): nat {
    match e
    case BytesIn(k, bytes) => if inward && ConnectionOf(s, k, Opened, id) then bytes else 0
    case BytesOut(k, bytes) => if !inward && ConnectionOf(s, k, Opened, id) then bytes else 0
    case _ => 0
  }

  predicate Restarts(s: State, e: Event, id: TunnelId) {
    e.Start? && e.request.id == id && StartAccepted(s, e.request)
  }

  /** All amounts recorded for `id` since its last accepted start. */
  function BytesSinceStart(events: seq<Event>, id: TunnelId, inward: bool): nat {
    if events == [] then 0 else
      var init, e := events[..|events| - 1], events[|events| - 1];
      if Restarts(Run(init), e, id) then 0 else BytesSinceStart(init, id, inward) + Recorded(Run(init), e, id, inward)
  }

  /** What one event does to the byte counters of `id`. */
  lemma ByteStep(s: State, e: Event, id: TunnelId)
    requires Listed(s, id) && Listed(Step(s, e), id)
    requires s.registry.snapshots[id].bytesIn <= U64_MAX && s.registry.snapshots[id].bytesOut <= U64_MAX
    ensures var old', new' := s.registry.snapshots[id], Step(s, e).registry.snapshots[id];
            if Restarts(s, e, id) then new'.bytesIn == new'.bytesOut == 0
            else
              && new'.bytesIn == Saturate(U64_MAX, old'.bytesIn + Recorded(s, e, id, true))
              && new'.bytesOut == Saturate(U64_MAX, old'.bytesOut + Recorded(s, e, id, false))
  {
  }

  /** The counters of a listed tunnel are the saturating sums of what was recorded since its start. */
  lemma {:induction false} CountersAreSaturatingSums(events: seq<Event>, id: TunnelId)
    requires Listed(Run(events), id)
    ensures Run(events).registry.snapshots[id].bytesIn == Saturate(U64_MAX, BytesSinceStart(events, id, true))
    ensures Run(events).registry.snapshots[id].bytesOut == Saturate(U64_MAX, BytesSinceStart(events, id, false))
  {
    var n := |events|;
    assert n != 0;
    var init, e := events[..n - 1], events[n - 1];
    if Listed(Run(init), id) {
      CountersAreSaturatingSums(init, id);
      ByteStep(Run(init), e, id);
    } else {
      CountAppears(Run(init), e, id);
      assert StartAccepted(Run(init), e.request);
    }
  }
}
