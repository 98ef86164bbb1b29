/** What a tunnel's snapshot says, told from the events alone. */
module TunnelSnapshots {
  import opened Text
  import opened Tunnels
  import opened TunnelTraffic

  /** A snapshot without its counters. */
  datatype Summary = Summary(name: string, status: Status, listenPort: nat, openedAt: Option<int>,
      lastError: Option<string>)

  function SummaryOf(s: State, id: TunnelId): Option<Summary> {
    if id in s.registry.snapshots then
      var x := s.registry.snapshots[id];
      Some(Summary(x.name, x.status, x.listenPort, x.openedAt, x.lastError))
    else None
  }

  predicate IsTask(s: State, t: nat, id: TunnelId) {
    t < |s.tasks| && s.tasks[t].id == id
  }

  /** A task of the tunnel has bound its port. */
  predicate Binds(s: State, e: Event, id: TunnelId) {
    e.BecomeRunning? && IsTask(s, e.task, id) && s.tasks[e.task].phase.Connecting?
  }

  /** A task of the tunnel has come to its end, in an error or not. */
  predicate Ends(s: State, e: Event, id: TunnelId) {
    e.Settle? && IsTask(s, e.task, id) && s.tasks[e.task].phase.Unhandled?
  }

  /** Stopped when it has no handle: the user dismisses what is left of it. */
  predicate Dismisses(s: State, e: Event, id: TunnelId) {
    e == Stop(id) && id !in s.registry.handles
  }

  /** What an event makes of the summary. */
  function Retold(s: State, e: Event, id: TunnelId, before: Option<Summary>): Option<Summary> {
    if Restarts(s, e, id) then Some(Summary(e.request.name, Starting, e.request.listenPort, None, None))
    else if before.None? || Dismisses(s, e, id) then None
    else if Binds(s, e, id) then
      Some(Summary(before.value.name, Running, e.port, Some(e.now), None))
    else if Ends(s, e, id) then
      var outcome := s.tasks[e.task].phase.outcome;
      if outcome.Errored? then Some(before.value.(status := Failed, lastError := Some(outcome.error))) else None
    else if e.ConnectionError? && ConnectionOf(s, e.connection, Opened, id) then
      Some(before.value.(lastError := Some(e.error)))
    else before
  }

  function Story(events: seq<Event>, id: TunnelId): Option<Summary> {
    if events == [] then None
    else Retold(Run(events[..|events| - 1]), events[|events| - 1], id, Story(events[..|events| - 1], id))
  }

  lemma TaskEventRetold(s: State, e: Event, id: TunnelId)
    requires e.Start? || e.Stop? || e.BecomeRunning? || e.Return? || e.DropHandle? || e.Settle?
    ensures SummaryOf(Step(s, e), id) == Retold(s, e, id, SummaryOf(s, id))
  {
  }

  lemma TrafficRetold(s: State, e: Event, id: TunnelId)
    requires !(e.Start? || e.Stop? || e.BecomeRunning? || e.Return? || e.DropHandle? || e.Settle?)
    ensures SummaryOf(Step(s, e), id) == Retold(s, e, id, SummaryOf(s, id))
  {
  }

  /**
   Over every run a tunnel is listed, and listed with the name, status, port, time and error, that its
   starts, bindings, ends, dismissals and connection errors tell.
   */
  lemma {:induction false} SnapshotTellsTheStory(events: seq<Event>, id: TunnelId)
    ensures SummaryOf(Run(events), id) == Story(events, id)
  {
    if events != [] {
      var init, e := events[..|events| - 1], events[|events| - 1];
      SnapshotTellsTheStory(init, id);
      if e.Start? || e.Stop? || e.BecomeRunning? || e.Return? || e.DropHandle? || e.Settle? {
        TaskEventRetold(Run(init), e, id);
      } else {
        TrafficRetold(Run(init), e, id);
      }
    }
  }

  /** A stop tells the task with the handle, and no other, and leaves the tunnel shown; or it dismisses the tunnel. */
  lemma StopEffect(s: State, id: TunnelId)
    ensures var s' := Step(s, Stop(id));
            if id in s.registry.handles then
              && s'.registry.snapshots == s.registry.snapshots && s'.connections == s.connections
              && id !in s'.registry.handles && |s'.tasks| == |s.tasks|
              && (forall i | i != id :: (i in s'.registry.handles <==> i in s.registry.handles)
                                        && (i in s.registry.handles ==>
                                            s'.registry.handles[i] == s.registry.handles[i]))
              && (forall t | 0 <= t < |s.tasks| ::
                    s'.tasks[t] == if t == s.registry.handles[id] then s.tasks[t].(stopRequested := true)
                        else s.tasks[t])
            else
              s'.tasks == s.tasks && s'.registry.handles == s.registry.handles && id !in s'.registry.snapshots
  {
  }
}
