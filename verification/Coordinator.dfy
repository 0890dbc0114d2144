// engine/distributed/coordinator.py over engine/distributed/core.py: workers, task assignments and
// the coordinator as mutable objects. Each method is proved to take the step of the same name in
// CoordinatorProtocol.dfy.

module Coordinator {
  import opened Basics
  import opened P = CoordinatorProtocol

  class WorkerNode {
    const id: WorkerId
    const capabilities: seq<string>
    var state: WorkerState
    var jobsCompleted: nat
    var jobsFailed: nat

    constructor (id: WorkerId, capabilities: seq<string>)
      ensures this.id == id
      ensures View() == Worker(if capabilities == [] then ["execute"] else capabilities, Idle, 0, 0)
    {
      this.id, this.capabilities := id, if capabilities == [] then ["execute"] else capabilities;
      state, jobsCompleted, jobsFailed := Idle, 0, 0;
    }

    function View(): Worker
      reads this
    {
      Worker(capabilities, state, jobsCompleted, jobsFailed)
    }
  }

  class TaskAssignment {
    const id: TaskId
    const required: seq<string>
    var worker: Option<WorkerId>
    var status: TaskStatus
    var retries: nat

    constructor (id: TaskId, required: seq<string>)
      ensures this.id == id
      ensures View() == Task(None, if required == [] then ["execute"] else required, Pending, 0)
    {
      this.id, this.required := id, if required == [] then ["execute"] else required;
      worker, status, retries := None, Pending, 0;
    }

    function View(): Task
      reads this
    {
      Task(worker, required, status, retries)
    }
  }

  function Ids(list: seq<TaskAssignment>): (r: seq<TaskId>)
    ensures |r| == |list| && forall i :: 0 <= i < |list| ==> r[i] == list[i].id
  {
    seq(|list|, i requires 0 <= i < |list| => list[i].id)
  }

  ghost predicate AllKnown(list: seq<TaskAssignment>, tasks: map<TaskId, TaskAssignment>) {
    forall a :: a in list ==> a.id in tasks && tasks[a.id] == a
  }

  lemma StillKnown(list: seq<TaskAssignment>, tasks: map<TaskId, TaskAssignment>, t: TaskId, a: TaskAssignment)
    requires AllKnown(list, tasks) && t !in tasks
    ensures AllKnown(list, tasks[t := a])
  {
  }

  datatype Reply = NotFound | Queued | AssignedTo(worker: WorkerId) | Ok | FailedForGood

  class SwarmCoordinator {
    const config: Config
    // The registry, keyed by config.order.
    const workers: map<WorkerId, WorkerNode>

    // The assignment table: its keys in insertion order, and its contents.
    var tracked: seq<TaskId>
    var assignments: map<TaskId, TaskAssignment>
    var pendingQueue: seq<TaskAssignment>
    var completed: seq<TaskAssignment>
    var failedAssignments: seq<TaskAssignment>
    var recoveryQueue: seq<TaskAssignment>

    // Every task ever submitted.
    ghost var tasks: map<TaskId, TaskAssignment>
    ghost var submitted: seq<TaskId>

    ghost predicate Known(a: TaskAssignment)
      reads this`tasks
    {
      a.id in tasks && tasks[a.id] == a
    }

    ghost predicate Valid()
      reads this
    {
      && (forall w :: w in workers ==> workers[w].id == w)
      && (forall t :: t in tasks ==> tasks[t].id == t)
      && (forall t :: t in assignments <==> t in tracked)
      && (forall t :: t in assignments ==> t in tasks && assignments[t] == tasks[t])
      && AllKnown(pendingQueue, tasks) && AllKnown(completed, tasks)
      && AllKnown(failedAssignments, tasks) && AllKnown(recoveryQueue, tasks)
    }

    function WorkerViews(): map<WorkerId, Worker>
      reads workers.Values
    {
      map w | w in workers :: workers[w].View()
    }

    ghost function TaskViews(): map<TaskId, Task>
      reads this`tasks, tasks.Values
    {
      map t | t in tasks :: tasks[t].View()
    }

    ghost function View(): State
      reads this, workers.Values, tasks.Values
    {
      State(WorkerViews(), TaskViews(), submitted, tracked,
            Ids(pendingQueue), Ids(completed), Ids(failedAssignments), Ids(recoveryQueue))
    }

    lemma ViewIsClosed()
      requires Valid()
      ensures Closed(View())
    {
      IdsAreTasks(pendingQueue);
      IdsAreTasks(recoveryQueue);
    }

    lemma IdsAreTasks(list: seq<TaskAssignment>)
      requires forall a :: a in list ==> Known(a)
      ensures forall t :: t in Ids(list) ==> t in tasks
    {
      forall t | t in Ids(list) ensures t in tasks {
        var i :| 0 <= i < |Ids(list)| && Ids(list)[i] == t;
        assert list[i] in list;
      }
    }

    constructor (config: Config, workers: map<WorkerId, WorkerNode>)
      requires forall w :: w in workers ==> workers[w].id == w
      ensures Valid() && this.config == config && this.workers == workers
      ensures View() == State(WorkerViews(), map[], [], [], [], [], [], [])
    {
      this.config, this.workers := config, workers;
      tracked, assignments := [], map[];
      pendingQueue, completed, failedAssignments, recoveryQueue := [], [], [], [];
      tasks, submitted := map[], [];
    }

    // ---------- Updates of a single object ----------

    method SetTask(a: TaskAssignment, worker: Option<WorkerId>, status: TaskStatus, retries: nat)
      requires Valid() && Known(a)
      modifies a
      ensures Valid() && View() == P.SetTask(old(View()), a.id, a.View())
      ensures a.View() == Task(worker, a.required, status, retries)
    {
      a.worker, a.status, a.retries := worker, status, retries;
      assert TaskViews() == old(TaskViews())[a.id := a.View()];
      assert WorkerViews() == old(WorkerViews());
    }

    method SetWorker(w: WorkerId, state: WorkerState, jobsCompleted: nat, jobsFailed: nat)
      requires Valid() && w in workers
      modifies workers[w]
      ensures Valid()
      ensures View() == P.SetWorker(old(View()), w, Worker(workers[w].capabilities, state, jobsCompleted, jobsFailed))
    {
      var node := workers[w];
      node.state, node.jobsCompleted, node.jobsFailed := state, jobsCompleted, jobsFailed;
      assert WorkerViews() == old(WorkerViews())[w := node.View()];
      assert TaskViews() == old(TaskViews());
    }

    method TrackTask(a: TaskAssignment)
      requires Valid() && Known(a)
      modifies this`tracked, this`assignments
      ensures Valid() && View() == old(View()).(tracked := Track(old(tracked), a.id))
    {
      if a.id !in assignments { tracked := tracked + [a.id]; }
      assignments := assignments[a.id := a];
      assert TaskViews() == old(TaskViews()) && WorkerViews() == old(WorkerViews());
    }

    // ---------- RemoteExecution ----------

    method WorkerCompletes(worker: Option<WorkerId>)
      requires Valid()
      modifies workers.Values
      ensures Valid() && View() == WorkerCompleted(old(View()), worker)
    {
      if worker.Some? && worker.value in workers {
        var node := workers[worker.value];
        SetWorker(worker.value, Idle, node.jobsCompleted + 1, node.jobsFailed);
      }
    }

    method WorkerFails(worker: Option<WorkerId>)
      requires Valid()
      modifies workers.Values
      ensures Valid() && View() == WorkerFailed(old(View()), worker)
    {
      if worker.Some? && worker.value in workers {
        var node := workers[worker.value];
        SetWorker(worker.value, Idle, node.jobsCompleted, node.jobsFailed + 1);
      }
    }

    // ---------- The coordinator ----------

    // _assign
    method Assign(a: TaskAssignment, w: WorkerId)
      requires Valid() && Known(a) && w in workers
      modifies this`tracked, this`assignments, workers[w], a
      ensures Valid() && View() == P.Assign(old(View()), a.id, w)
    {
      SetTask(a, Some(w), Assigned, a.retries);
      TrackTask(a);
      SetWorker(w, Busy, workers[w].jobsCompleted, workers[w].jobsFailed);
    }

    method PopPending() returns (a: TaskAssignment)
      requires Valid() && pendingQueue != []
      modifies this`pendingQueue
      ensures Valid() && Known(a) && a == old(pendingQueue)[0]
      ensures View() == old(View()).(pending := old(View()).pending[1..])
    {
      a := pendingQueue[0];
      pendingQueue := pendingQueue[1..];
      assert TaskViews() == old(TaskViews()) && WorkerViews() == old(WorkerViews());
      assert Ids(pendingQueue) == Ids(old(pendingQueue))[1..];
    }

    method ChooseWorker(required: seq<string>) returns (choice: Option<WorkerId>)
      requires Valid()
      ensures choice == Select(config, View().workers, required)
      ensures choice.Some? ==> choice.value in workers
    {
      choice := Select(config, WorkerViews(), required);
    }

    // _process_pending
    method ProcessPending()
      requires Valid()
      modifies this`tracked, this`assignments, this`pendingQueue, workers.Values, tasks.Values
      ensures Valid() && (forall t :: t in old(View()).pending ==> t in old(View()).tasks)
      ensures View() == P.ProcessPending(config, old(View()))
    {
      ViewIsClosed();
      ghost var start := View();
      var more := true;
      while more && pendingQueue != []
        invariant Valid() && forall t :: t in View().pending ==> t in View().tasks
        invariant P.ProcessPending(config, View()) == P.ProcessPending(config, start)
        invariant !more ==> P.ProcessPending(config, View()) == View()
        decreases |pendingQueue|, more
      {
        more := DrainNext();
      }
    }

    // The head of the queue is assigned, or waits because no worker is selected for it.
    method DrainNext() returns (more: bool)
      requires Valid() && pendingQueue != [] && forall t :: t in View().pending ==> t in View().tasks
      modifies this`tracked, this`assignments, this`pendingQueue, workers.Values, tasks.Values
      ensures Valid() && forall t :: t in View().pending ==> t in View().tasks
      ensures P.ProcessPending(config, View()) == old(P.ProcessPending(config, View()))
      ensures if more then |pendingQueue| < |old(pendingQueue)|
              else pendingQueue == old(pendingQueue) && P.ProcessPending(config, View()) == View()
    {
      ghost var before := View();
      var choice := ChooseWorker(pendingQueue[0].required);
      DrainUnfolds(config, before);
      if choice.None? { return false; }
      var a := PopPending();
      hide P.ProcessPending, P.Select;
      Assign(a, choice.value);
      ViewIsClosed();
      return true;
    }

    // ---------- Queue updates ----------

    method PushPending(a: TaskAssignment)
      requires Valid() && Known(a)
      modifies this`pendingQueue
      ensures Valid() && View() == old(View()).(pending := old(View()).pending + [a.id])
    {
      pendingQueue := pendingQueue + [a];
      assert TaskViews() == old(TaskViews()) && WorkerViews() == old(WorkerViews());
      assert Ids(pendingQueue) == Ids(old(pendingQueue)) + [a.id];
    }

    method PushCompleted(a: TaskAssignment)
      requires Valid() && Known(a)
      modifies this`completed
      ensures Valid() && View() == old(View()).(completed := old(View()).completed + [a.id])
    {
      completed := completed + [a];
      assert TaskViews() == old(TaskViews()) && WorkerViews() == old(WorkerViews());
      assert Ids(completed) == Ids(old(completed)) + [a.id];
    }

    method PushFailed(a: TaskAssignment)
      requires Valid() && Known(a)
      modifies this`failedAssignments
      ensures Valid() && View() == old(View()).(failed := old(View()).failed + [a.id])
    {
      failedAssignments := failedAssignments + [a];
      assert TaskViews() == old(TaskViews()) && WorkerViews() == old(WorkerViews());
      assert Ids(failedAssignments) == Ids(old(failedAssignments)) + [a.id];
    }

    // A TaskAssignment is created; ghost state records it.
    method NewTask(t: TaskId, required: seq<string>) returns (a: TaskAssignment)
      requires Valid() && t !in tasks
      modifies this`tasks, this`submitted
      ensures Valid() && fresh(a) && Known(a) && a.id == t && tasks == old(tasks)[t := a]
      ensures View() == WithNewTask(old(View()), t, required)
    {
      a := new TaskAssignment(t, required);
      Enroll(a);
    }

    ghost method Enroll(a: TaskAssignment)
      requires Valid() && a.id !in tasks
      modifies this`tasks, this`submitted
      ensures Valid() && Known(a) && tasks == old(tasks)[a.id := a]
      ensures View() == old(View()).(tasks := old(View()).tasks[a.id := a.View()], submitted := old(submitted) + [a.id])
    {
      StillKnown(pendingQueue, tasks, a.id, a);
      StillKnown(completed, tasks, a.id, a);
      StillKnown(failedAssignments, tasks, a.id, a);
      StillKnown(recoveryQueue, tasks, a.id, a);
      hide Ids, AllKnown;
      tasks, submitted := tasks[a.id := a], submitted + [a.id];
      assert TaskViews() == old(TaskViews())[a.id := a.View()];
      assert WorkerViews() == old(WorkerViews());
    }

    // Give a task to the worker chosen for it, or queue it.
    method Settle(a: TaskAssignment, choice: Option<WorkerId>) returns (reply: Reply)
      requires Valid() && Known(a) && (choice.Some? ==> choice.value in workers)
      modifies this`tracked, this`assignments, this`pendingQueue, workers.Values, a
      ensures Valid() && View() == P.Settle(old(View()), a.id, choice)
      ensures reply == if choice.Some? then AssignedTo(choice.value) else Queued
      ensures choice.None? ==> a.View() == old(a.View())
    {
      match choice
      case Some(w) =>
        Assign(a, w);
        reply := AssignedTo(w);
      case None =>
        PushPending(a);
        reply := Queued;
    }

    // The task id is fresh, as the generated ones are.
    method Submit(t: TaskId, required: seq<string>) returns (reply: Reply)
      requires Valid() && t !in tasks
      modifies this, workers.Values
      ensures Valid() && View() == P.Submit(config, old(View()), t, required)
      ensures reply == match Select(config, old(View()).workers, required)
                       case Some(w) => AssignedTo(w)
                       case None => Queued
    {
      hide Select, AllKnown, P.Settle, View;
      var choice := ChooseWorker(required);
      var a := NewTask(t, required);
      reply := Settle(a, choice);
    }

    method Complete(t: TaskId) returns (reply: Reply)
      requires Valid()
      modifies this`tracked, this`assignments, this`pendingQueue, this`completed, workers.Values, tasks.Values
      ensures Valid() && Closed(old(View())) && View() == P.Complete(config, old(View()), t)
      ensures reply == if t in old(tracked) then Ok else NotFound
    {
      ViewIsClosed();
      if t !in assignments { return NotFound; }
      ghost var before := View();
      var a := assignments[t];
      SetTask(a, a.worker, Completed, a.retries);
      WorkerCompletes(a.worker);
      PushCompleted(a);
      assert View() == Finished(before, t);
      ProcessPending();
      return Ok;
    }

    // The end of fail: the task has failed for good.
    method GiveUp(a: TaskAssignment)
      requires Valid() && Known(a)
      modifies this`tracked, this`assignments, this`pendingQueue, this`failedAssignments, workers.Values, tasks.Values
      ensures Valid()
      ensures var s1 := GivenUp(old(View()), a.id, old(a.View()));
        (forall t :: t in s1.pending ==> t in s1.tasks) && View() == P.ProcessPending(config, s1)
    {
      ghost var before, v := View(), a.View();
      SetTask(a, a.worker, TaskStatus.Failed, a.retries);
      assert View() == P.SetTask(before, a.id, v.(status := TaskStatus.Failed));
      WorkerFails(a.worker);
      PushFailed(a);
      assert View() == GivenUp(before, a.id, v);
      ProcessPending();
    }

    // A worker is selected for the task, and the task given to it or queued.
    method Place(a: TaskAssignment) returns (choice: Option<WorkerId>)
      requires Valid() && Known(a)
      modifies this`tracked, this`assignments, this`pendingQueue, workers.Values, a
      ensures Valid() && choice == Select(config, old(View()).workers, a.required)
      ensures choice.Some? ==> choice.value in old(View()).workers
      ensures View() == P.Settle(old(View()), a.id, choice)
      ensures choice.None? ==> a.View() == old(a.View())
    {
      hide Select, AllKnown, Ids, P.Settle;
      choice := ChooseWorker(a.required);
      var _ := Settle(a, choice);
    }

    method Release(a: TaskAssignment)
      requires Valid() && Known(a)
      modifies workers.Values, a
      ensures Valid() && View() == Released(old(View()), a.id, old(a.View()))
      ensures a.View() == old(a.View()).(status := Retrying)
    {
      SetTask(a, a.worker, Retrying, a.retries);
      WorkerFails(a.worker);
    }

    // A task with retries left frees its worker and takes one that is idle, or is queued.
    method Retry(a: TaskAssignment) returns (choice: Option<WorkerId>)
      requires Valid() && Known(a)
      modifies this`tracked, this`assignments, this`pendingQueue, workers.Values, a
      ensures Valid()
      ensures var s1 := Released(old(View()), a.id, old(a.View()));
        && choice == Select(config, s1.workers, a.required) && (choice.Some? ==> choice.value in s1.workers)
        && View() == P.Settle(s1, a.id, choice)
      ensures choice.None? ==> a.View() == old(a.View()).(status := Retrying)
    {
      hide Select, AllKnown, Ids, P.Settle, Released, View;
      Release(a);
      choice := Place(a);
    }

    // A retry is counted against the task.
    method Charge(a: TaskAssignment)
      requires Valid() && Known(a)
      modifies a
      ensures Valid() && a.View() == Charged(old(View()), a.id)
      ensures View() == P.SetTask(old(View()), a.id, a.View())
    {
      SetTask(a, a.worker, a.status, a.retries + 1);
    }

    method Fail(t: TaskId) returns (reply: Reply)
      requires Valid()
      modifies this`tracked, this`assignments, this`pendingQueue, this`failedAssignments, workers.Values, tasks.Values
      ensures Valid() && Closed(old(View())) && View() == P.Fail(config, old(View()), t)
      ensures t !in old(tracked) <==> reply == NotFound
    {
      hide AllKnown, Select, Ids, Released, GivenUp;
      ViewIsClosed();
      if t !in assignments { return NotFound; }
      var a := assignments[t];
      ghost var before, v := View(), Charged(View(), t);
      Charge(a);
      ChargedFirst(before, t, v, v.status);
      FailUnfolds(config, before, t);
      if a.retries < MAX_RETRIES {
        var choice := Retry(a);
        if choice.Some? { return AssignedTo(choice.value); }
        ChargedFirst(P.Settle(Released(before, t, v), t, None), t, v, Retrying);
      }
      GiveUp(a);
      return FailedForGood;
    }

    // ---------- A dead worker ----------

    method Orphaned(a: TaskAssignment)
      requires Valid() && Known(a)
      modifies this`recoveryQueue, a
      ensures Valid() && View() == Orphan(old(View()), [a.id])
    {
      ghost var before := View();
      SetTask(a, None, TaskStatus.Orphaned, a.retries);
      PushRecovery(a);
      OrphansOneTask(before, a.id);
    }

    method PushRecovery(a: TaskAssignment)
      requires Valid() && Known(a)
      modifies this`recoveryQueue
      ensures Valid() && View() == old(View()).(recovery := old(View()).recovery + [a.id])
    {
      recoveryQueue := recoveryQueue + [a];
      assert TaskViews() == old(TaskViews()) && WorkerViews() == old(WorkerViews());
      assert Ids(recoveryQueue) == Ids(old(recoveryQueue)) + [a.id];
    }

    method PopRecovery() returns (a: TaskAssignment)
      requires Valid() && recoveryQueue != []
      modifies this`recoveryQueue
      ensures Valid() && Known(a) && a == old(recoveryQueue)[0]
      ensures View() == old(View()).(recovery := old(View()).recovery[1..])
    {
      a := recoveryQueue[0];
      recoveryQueue := recoveryQueue[1..];
      assert TaskViews() == old(TaskViews()) && WorkerViews() == old(WorkerViews());
      assert Ids(recoveryQueue) == Ids(old(recoveryQueue))[1..];
    }

    method RecoverNext() returns (choice: Option<WorkerId>)
      requires Valid() && recoveryQueue != []
      modifies this`tracked, this`assignments, this`pendingQueue, this`recoveryQueue, workers.Values, tasks.Values
      ensures Valid() && |recoveryQueue| < |old(recoveryQueue)|
      ensures var s := old(View());
        && s.recovery != [] && s.recovery[0] in s.tasks
        && choice == Select(config, s.workers, s.tasks[s.recovery[0]].required)
        && (choice.Some? ==> choice.value in s.workers)
        && View() == P.Settle(s.(recovery := s.recovery[1..]), s.recovery[0], choice)
    {
      hide Select, AllKnown, P.Settle;
      var a := PopRecovery();
      choice := Place(a);
    }

    // _recover_orphaned
    method RecoverOrphaned()
      requires Valid()
      modifies this`tracked, this`assignments, this`pendingQueue, this`recoveryQueue, workers.Values, tasks.Values
      ensures Valid() && (forall t :: t in old(View()).recovery ==> t in old(View()).tasks)
      ensures View() == Recover(config, old(View()))
    {
      ViewIsClosed();
      ghost var start := View();
      while recoveryQueue != []
        invariant Valid() && forall t :: t in View().recovery ==> t in View().tasks
        invariant Recover(config, View()) == Recover(config, start)
        decreases |recoveryQueue|
      {
        RecoverUnfolds(config, View());
        var choice := RecoverNext();
        if choice.None? { return; }
      }
    }

    // The tracked tasks that were running on the worker, in the order of the assignment table.
    method FindAffected(w: WorkerId) returns (affected: seq<TaskAssignment>)
      requires Valid()
      ensures Ids(affected) == Affected(View(), tracked, w) && forall a :: a in affected ==> Known(a)
    {
      affected := [];
      for i := 0 to |tracked|
        invariant Ids(affected) == Affected(View(), tracked[..i], w) && forall a :: a in affected ==> Known(a)
      {
        var a := assignments[tracked[i]];
        assert tracked[..i + 1][..i] == tracked[..i];
        assert View().tasks[a.id] == a.View();
        if a.worker == Some(w) && a.status in {Assigned, Retrying} {
          assert Ids(affected + [a]) == Ids(affected) + [a.id];
          affected := affected + [a];
        }
      }
      assert tracked[..|tracked|] == tracked;
    }

    method OrphanAll(affected: seq<TaskAssignment>)
      requires Valid() && forall a :: a in affected ==> Known(a)
      modifies this`recoveryQueue, tasks.Values
      ensures Valid() && View() == Orphan(old(View()), Ids(affected))
    {
      ghost var before := View();
      OrphansNone(before);
      for i := 0 to |affected|
        invariant Valid() && View() == Orphan(before, Ids(affected[..i]))
      {
        assert affected[i] in affected;
        assert Ids(affected[..i + 1]) == Ids(affected[..i]) + [affected[i].id];
        OrphansOneMore(before, Ids(affected[..i]), affected[i].id);
        Orphaned(affected[i]);
      }
      assert affected[..|affected|] == affected;
    }

    method HandleDeadWorker(w: WorkerId)
      requires Valid()
      modifies this`tracked, this`assignments, this`pendingQueue, this`recoveryQueue, workers.Values, tasks.Values
      ensures Valid() && Closed(old(View())) && View() == P.HandleDeadWorker(config, old(View()), w)
    {
      ViewIsClosed();
      if w !in workers { return; }
      ghost var before := View();
      SetWorker(w, WorkerState.Failed, workers[w].jobsCompleted, workers[w].jobsFailed);
      var affected := FindAffected(w);
      AffectedSame(before, View(), tracked, w);
      OrphanAll(affected);
      RecoverOrphaned();
    }
  }
}
