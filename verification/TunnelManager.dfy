/** The manager's start, stop and completion handlers, updating the shared registry in place. */
module TunnelManager {
  import opened Text
  import opened Tunnels
  import opened TunnelLifecycle

  datatype StartResult = Started(snapshot: Snapshot) | MissingAuthMethods | AlreadyRunning(id: TunnelId)

  class Manager {
    var snapshots: map<TunnelId, Snapshot>
    var handles: map<TunnelId, nat>
    var tasks: seq<Task>
    ghost var connections: seq<Connection>

    ghost function Model(): State
      reads this
    {
      State(Registry(snapshots, handles), tasks, connections)
    }

    /** Every handle is that of a task which can still be told to stop, and every such task has one. */
    ghost predicate Valid()
      reads this
    {
      HandlesExact(Model())
    }

    constructor ()
      ensures Valid() && Model() == Init()
    {
      snapshots, handles, tasks, connections := map[], map[], [], [];
    }

    method InsertHandle(id: TunnelId, task: nat) returns (ok: bool)
      modifies this`handles
      ensures ok == (id !in old(handles))
      ensures handles == if ok then old(handles)[id := task] else old(handles)
    {
      ok := id !in handles;
      if ok {
        handles := handles[id := task];
      }
    }

    /** A start either fails and changes nothing, or leaves a starting snapshot, a handle and a task. */
    method StartPortForward(request: Request) returns (result: StartResult)
      requires Valid()
      modifies this
      ensures Valid() && Model() == Step(old(Model()), Start(request))
      ensures result.Started? == StartAccepted(old(Model()), request)
      ensures result.Started? ==> snapshots[request.id] == result.snapshot && result.snapshot.status.Starting?
      ensures result.Started? ==> LiveTaskOf(Model(), request.id, old(|tasks|)) && handles[request.id] == old(|tasks|)
      ensures result.MissingAuthMethods? <==> request.authMethods == 0
      ensures result == AlreadyRunning(request.id) <==> request.authMethods != 0 && request.id in old(handles)
    {
      HandlesStep(Model(), Start(request));
      if request.authMethods == 0 {
        return MissingAuthMethods;
      }
      if request.id in handles {
        return AlreadyRunning(request.id);
      }
      var snapshot := Snapshot(request.name, Starting, request.listenPort, None, 0, 0, 0, None);
      snapshots := snapshots[request.id := snapshot];
      connections := Uncount(connections, request.id);
      var ok := InsertHandle(request.id, |tasks|);
      if !ok {
        return AlreadyRunning(request.id);
      }
      tasks := tasks + [Task(request.id, Connecting, false)];
      result := Started(snapshot);
    }

    /** Takes the handle out and drops it, which signals its task. */
    method TakeHandle(id: TunnelId) returns (task: Option<nat>)
      requires Valid()
      modifies this`handles, this`tasks
      ensures Valid() && Model() == RemoveHandle(old(Model()), id)
      ensures task == if id in old(handles) then Some(old(handles[id])) else None
    {
      RemovalKeepsHandles(Model(), id);
      task := None;
      if id in handles {
        task := Some(handles[id]);
        handles := handles - {id};
        tasks := tasks[task.value := tasks[task.value].(stopRequested := true)];
      }
    }

    /**
     With a handle: signal its task, keep the snapshot, and tell whether the task still listened.
     Without one: forget the snapshot, and tell whether there was one.
     */
    method StopPortForward(id: TunnelId) returns (stopped: bool)
      requires Valid()
      modifies this
      ensures Valid() && Model() == Step(old(Model()), Stop(id))
      ensures id in old(handles) ==> stopped == !old(tasks[handles[id]]).phase.Returned?
      ensures id !in old(handles) ==> stopped == (id in old(snapshots))
    {
      HandlesStep(Model(), Stop(id));
      var task := TakeHandle(id);
      if task.Some? {
        stopped := !tasks[task.value].phase.Returned?;
      } else {
        stopped := id in snapshots;
        snapshots := snapshots - {id};
        connections := Uncount(connections, id);
      }
    }

    /** First half of the completion handler: the handle of the id goes, and with it its task's sender. */
    method CompletionDropsHandle(task: nat)
      requires Valid() && task < |tasks| && tasks[task].phase.Returned?
      modifies this
      ensures Valid() && Model() == Step(old(Model()), DropHandle(task))
    {
      DropKeepsHandles(Model(), task);
      var outcome := tasks[task].phase.outcome;
      var _ := TakeHandle(tasks[task].id);
      tasks := tasks[task := tasks[task].(phase := Unhandled(outcome))];
    }

    /** Second half: a clean end forgets the snapshot, an error is kept in it. */
    method CompletionSettles(task: nat)
      requires Valid() && task < |tasks| && tasks[task].phase.Unhandled?
      modifies this
      ensures Valid() && Model() == Step(old(Model()), Settle(task))
    {
      HandlesStep(Model(), Settle(task));
      var id := tasks[task].id;
      match tasks[task].phase.outcome {
        case Completed | Cancelled =>
          snapshots := snapshots - {id};
        case Errored(error) =>
          if id in snapshots {
            snapshots := snapshots[id :=
                snapshots[id].(status := Failed, lastError := Some(error), activeConnections := 0)];
          }
      }
      connections := Uncount(connections, id);
      tasks := tasks[task := tasks[task].(phase := Done)];
    }
  }
}
