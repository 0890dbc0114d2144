// engine/distributed/coordinator.py: what one step of the swarm coordinator does to the task and the
// worker it is about, and to all others.

module CoordinatorOutcomes {
  import opened Basics
  import opened Sequences
  import opened CoordinatorProtocol

  // Task t runs on w, which is busy.
  ghost predicate RunsOn(s: State, t: TaskId, w: WorkerId) {
    && t in s.tasks && s.tasks[t].status == Assigned && s.tasks[t].worker == Some(w)
    && w in s.workers && s.workers[w].state == Busy
  }

  ghost predicate SomeoneIdle(s: State) {
    exists w :: w in s.workers && s.workers[w].state == Idle
  }

  // Every task but t is as it was.
  ghost predicate OthersSame(s: State, s': State, t: TaskId) {
    s'.tasks.Keys == s.tasks.Keys + {t} && forall u :: u in s.tasks && u != t ==> s'.tasks[u] == s.tasks[u]
  }

  // Only w changes its counters, by the given numbers; no worker changes its capabilities.
  ghost predicate Credited(s: State, s': State, w: WorkerId, completed: nat, failed: nat) {
    && s'.workers.Keys == s.workers.Keys && w in s.workers
    && s'.workers[w].jobsCompleted == s.workers[w].jobsCompleted + completed
    && s'.workers[w].jobsFailed == s.workers[w].jobsFailed + failed
    && forall x :: x in s.workers ==>
         && s'.workers[x].capabilities == s.workers[x].capabilities
         && (x != w ==> s'.workers[x].jobsCompleted == s.workers[x].jobsCompleted &&
                        s'.workers[x].jobsFailed == s.workers[x].jobsFailed)
  }

  // Task t now runs on x.
  ghost predicate NowOn(s: State, s': State, t: TaskId, x: WorkerId) {
    && t in s'.tasks && s'.tasks[t].status == Assigned && s'.tasks[t].worker == Some(x)
    && x in s.workers && x in s'.workers && s'.workers[x].state == Busy && s'.pending == s.pending
  }

  ghost predicate NowWaits(s: State, s': State, t: TaskId, status: TaskStatus) {
    && t in s'.tasks && s'.tasks[t].status == status && s'.tasks[t].worker == None
    && s'.pending == s.pending + [t]
  }

  // A new task runs on a worker that was idle, or waits at the end of the queue exactly when none was.
  ghost predicate Submitted(s: State, s': State, t: TaskId, required: seq<string>) {
    && OthersSame(s, s', t) && t in s'.tasks && s'.submitted == s.submitted + [t]
    && s'.tasks[t].required == (if required == [] then ["execute"] else required) && s'.tasks[t].retries == 0
    && (SomeoneIdle(s) ==> exists x :: NowOn(s, s', t, x) && s.workers[x].state == Idle &&
                                       s'.workers == s.workers[x := s.workers[x].(state := Busy)])
    && (!SomeoneIdle(s) ==> NowWaits(s, s', t, Pending) && s'.workers == s.workers)
  }

  lemma SubmitOutcome(config: Config, s: State, t: TaskId, required: seq<string>)
    requires Inv(config, s) && t !in s.tasks
    ensures Submitted(s, Submit(config, s, t, required), t, required)
  {
    NoneIdle(config, s, required);
    var choice := Select(config, s.workers, required);
    hide Inv, Select, Submitted;
    SubmittedWith(s, t, required, choice);
  }

  lemma SubmittedWith(s: State, t: TaskId, required: seq<string>, choice: Option<WorkerId>)
    requires t !in s.tasks && (choice.Some? <==> SomeoneIdle(s))
    requires choice.Some? ==> choice.value in s.workers && s.workers[choice.value].state == Idle
    ensures Submitted(s, Settle(WithNewTask(s, t, required), t, choice), t, required)
  {
    if choice.Some? { assert NowOn(s, Settle(WithNewTask(s, t, required), t, choice), t, choice.value); }
  }

  // A completed task is filed, its worker is credited, and then the queue is drained.
  lemma CompleteOutcome(config: Config, s: State, t: TaskId, w: WorkerId)
    requires Inv(config, s) && RunsOn(s, t, w)
    ensures Closed(s)
    ensures var s' := Complete(config, s, t);
      && Ends(s, s', t, s.tasks[t].(status := Completed)) && Credited(s, s', w, 1, 0)
      && s'.completed == s.completed + [t] && s'.failed == s.failed
  {
    AssignedFacts(config, s, t);
    FinishedKeeps(config, s, t);
    hide Inv, Placed, Credited, Ends, ProcessPending, Finished;
    FinishedOn(s, t, w);
    EndedThenDrained(config, s, Finished(s, t), t, s.tasks[t].(status := Completed), w, 1, 0);
  }

  lemma FinishedOn(s: State, t: TaskId, w: WorkerId)
    requires RunsOn(s, t, w)
    ensures var s1 := Finished(s, t);
      && s1.tasks == s.tasks[t := s.tasks[t].(status := Completed)] && s1.pending == s.pending
      && Credited(s, s1, w, 1, 0) && s1.completed == s.completed + [t] && s1.failed == s.failed
  {
  }

  // Task t ends as v, and the queue is drained.
  ghost predicate Ends(s: State, s': State, t: TaskId, v: Task) {
    t in s'.tasks && s'.tasks[t] == v && exists k: nat :: Assigns(s, s', t, k)
  }

  // The first k waiting tasks are assigned, and apart from t no other task changes.
  ghost predicate Assigns(s: State, s': State, t: TaskId, k: nat) {
    && k <= |s.pending| && s'.pending == s.pending[k..] && s'.tasks.Keys == s.tasks.Keys
    && (forall u :: u in s.pending[..k] ==> u in s'.tasks && s'.tasks[u].status == Assigned)
    && (forall u :: u in s.tasks && u != t && u !in s.pending[..k] ==> s'.tasks[u] == s.tasks[u])
  }

  lemma EndedThenDrained(config: Config, s: State, s1: State, t: TaskId, v: Task, w: WorkerId, completed: nat,
                         failed: nat)
    requires Placed(config, s1, {}) && t in s.tasks && v.status in {Completed, TaskStatus.Failed}
    requires s1.tasks == s.tasks[t := v] && s1.pending == s.pending && Credited(s, s1, w, completed, failed)
    ensures forall u :: u in s1.pending ==> u in s1.tasks
    ensures var s' := ProcessPending(config, s1);
      && Ends(s, s', t, v) && Credited(s, s', w, completed, failed)
      && s'.completed == s1.completed && s'.failed == s1.failed
  {
    PlacedIsClosed(config, s1, {});
    assert TaskPlaced(s1, {}, t);
    assert t !in s1.pending;
    hide Placed, TaskPlaced, ProcessPending, Credited, Assigns;
    CreditStays(config, s, s1, w, completed, failed);
    var k := DrainAssigns(config, s, s1, t, v);
  }

  lemma DrainAssigns(config: Config, s: State, s1: State, t: TaskId, v: Task) returns (k: nat)
    requires t in s.tasks && s1.tasks == s.tasks[t := v] && s1.pending == s.pending && t !in s1.pending
    requires forall u :: u in s1.pending ==> u in s1.tasks
    ensures var s' := ProcessPending(config, s1);
      && t in s'.tasks && s'.tasks[t] == v && Assigns(s, s', t, k)
      && s'.completed == s1.completed && s'.failed == s1.failed
  {
    hide ProcessPending, Drained;
    ProcessPendingDrains(config, s1);
    ProcessPendingLeaves(config, s1);
    k := Drained(config, s1);
    assert forall u :: u in s1.pending[..k] ==> u in s1.pending;
  }

  lemma CreditStays(config: Config, s: State, s1: State, w: WorkerId, completed: nat, failed: nat)
    requires forall u :: u in s1.pending ==> u in s1.tasks
    requires Credited(s, s1, w, completed, failed)
    ensures Credited(s, ProcessPending(config, s1), w, completed, failed)
  {
    DrainKeepsWorkers(config, s1);
  }

  lemma {:induction false} DrainKeepsWorkers(config: Config, s: State)
    requires forall t :: t in s.pending ==> t in s.tasks
    ensures var s' := ProcessPending(config, s);
      s'.workers.Keys == s.workers.Keys &&
      forall x :: x in s.workers ==> s'.workers[x].(state := s.workers[x].state) == s.workers[x]
    decreases |s.pending|
  {
    if s.pending != [] {
      var t := s.pending[0];
      match Select(config, s.workers, s.tasks[t].required)
      case None =>
      case Some(w) => DrainKeepsWorkers(config, Assign(s.(pending := s.pending[1..]), t, w));
    }
  }

  // The third failure is final; before that the task is handed to a worker that is idle once its own
  // is freed. Either way the worker is charged with the failure.
  lemma FailOutcome(config: Config, s: State, t: TaskId, w: WorkerId)
    requires Inv(config, s) && RunsOn(s, t, w)
    ensures Closed(s) && s.tasks[t].retries < 3
    ensures var s', v := Fail(config, s, t), s.tasks[t].(retries := s.tasks[t].retries + 1);
      && Credited(s, s', w, 0, 1) && s'.completed == s.completed
      && (v.retries < 3 ==> s'.failed == s.failed && OthersSame(s, s', t) && exists x :: Retried(s, s', t, v, w, x))
      && (v.retries == 3 ==> s'.failed == s.failed + [t] && Ends(s, s', t, v.(status := TaskStatus.Failed)))
  {
    AssignedFacts(config, s, t);
    hide Inv, Closed, Fail, Credited, Ends, Retried, OthersSame;
    if s.tasks[t].retries + 1 < 3 {
      var x := RetryOutcome(config, s, t, w);
    } else {
      GiveUpOutcome(config, s, t, w);
    }
  }

  ghost predicate Retried(s: State, s': State, t: TaskId, v: Task, w: WorkerId, x: WorkerId) {
    && NowOn(s, s', t, x) && s'.tasks[t] == v.(status := Assigned, worker := Some(x))
    && (x == w || s.workers[x].state == Idle)
    && (x != w ==> w in s'.workers && s'.workers[w].state == Idle)
  }

  lemma RetryOutcome(config: Config, s: State, t: TaskId, w: WorkerId) returns (x: WorkerId)
    requires Inv(config, s) && RunsOn(s, t, w) && s.tasks[t].retries + 1 < 3
    ensures Closed(s)
    ensures var s', v := Fail(config, s, t), s.tasks[t].(retries := s.tasks[t].retries + 1);
      && Credited(s, s', w, 0, 1) && OthersSame(s, s', t) && s'.completed == s.completed && s'.failed == s.failed
      && Retried(s, s', t, v, w, x)
  {
    RetryReassigns(config, s, t);
    hide Inv, Closed, Fail;
    var s1 := Released(s, t, Charged(s, t));
    x := Select(config, s1.workers, s.tasks[t].required).value;
    assert x in s1.workers && s1.workers[x].state == Idle;
    hide Select;
    RetriedOn(s, t, w, x);
  }

  lemma RetriedOn(s: State, t: TaskId, w: WorkerId, x: WorkerId)
    requires RunsOn(s, t, w)
    requires var s1 := Released(s, t, Charged(s, t)); x in s1.workers && s1.workers[x].state == Idle
    ensures var s', v := Assign(Released(s, t, Charged(s, t)), t, x), s.tasks[t].(retries := s.tasks[t].retries + 1);
      && Credited(s, s', w, 0, 1) && OthersSame(s, s', t) && s'.completed == s.completed && s'.failed == s.failed
      && Retried(s, s', t, v, w, x)
  {
  }

  lemma GiveUpOutcome(config: Config, s: State, t: TaskId, w: WorkerId)
    requires Inv(config, s) && RunsOn(s, t, w) && s.tasks[t].retries + 1 >= 3
    ensures Closed(s) && s.tasks[t].retries == 2
    ensures var s', v := Fail(config, s, t), s.tasks[t].(retries := 3, status := TaskStatus.Failed);
      && Credited(s, s', w, 0, 1) && Ends(s, s', t, v) && s'.completed == s.completed && s'.failed == s.failed + [t]
  {
    AssignedFacts(config, s, t);
    GivenUpKeeps(config, s, t);
    FailUnfolds(config, s, t);
    var s1, v := GivenUp(s, t, Charged(s, t)), s.tasks[t].(retries := 3, status := TaskStatus.Failed);
    hide Inv, Placed, Fail, Assigns, ProcessPending, Ends, Closed;
    GivenUpOn(s, t, w);
    hide Credited, GivenUp;
    EndedThenDrained(config, s, s1, t, v, w, 0, 1);
  }

  lemma GivenUpOn(s: State, t: TaskId, w: WorkerId)
    requires RunsOn(s, t, w)
    ensures var s1 := GivenUp(s, t, Charged(s, t));
      && s1.tasks == s.tasks[t := s.tasks[t].(retries := s.tasks[t].retries + 1, status := TaskStatus.Failed)]
      && s1.pending == s.pending && Credited(s, s1, w, 0, 1)
      && s1.completed == s.completed && s1.failed == s.failed + [t]
  {
  }

  // The worker that died stays failed with its counters. The task it ran goes to another worker that is
  // idle, or exactly when there is none to the end of the queue; no other task changes.
  ghost predicate Died(s: State, s': State, t: TaskId, w: WorkerId) {
    && t in s.tasks && w in s.workers && OthersSame(s, s', t)
    && t in s'.tasks && s'.tasks[t].retries == s.tasks[t].retries
    && s'.recovery == [] && s'.completed == s.completed && s'.failed == s.failed
    && var dead := s.workers[w].(state := WorkerState.Failed);
    && (SomeoneIdle(s) ==>
          exists x :: NowOn(s, s', t, x) && x != w && s.workers[x].state == Idle &&
                      s'.workers == s.workers[w := dead][x := s.workers[x].(state := Busy)])
    && (!SomeoneIdle(s) ==> NowWaits(s, s', t, Orphaned) && s'.workers == s.workers[w := dead])
  }

  lemma DeathOutcome(config: Config, s: State, w: WorkerId, t: TaskId)
    requires Inv(config, s) && RunsOn(s, t, w)
    ensures Closed(s) && Died(s, HandleDeadWorker(config, s, w), t, w)
  {
    var s1 := Orphaning(s, t, w);
    var choice := Select(config, s1.workers, s1.tasks[t].required);
    DeadBusyWorker(config, s, t, w);
    assert Elems(config.order) == s1.workers.Keys && s.recovery == [];
    NoneIdle(config, s1, s1.tasks[t].required);
    IdleBesides(s, t, w);
    assert choice.Some? ==> choice.value in s1.workers && s1.workers[choice.value].state == Idle;
    hide Inv, Placed, HandleDeadWorker, Closed, Select, Died;
    DiedWith(s, t, w, choice);
  }

  lemma IdleBesides(s: State, t: TaskId, w: WorkerId)
    requires RunsOn(s, t, w)
    ensures NoIdle(Orphaning(s, t, w)) <==> !SomeoneIdle(s)
  {
    if x :| x in s.workers && s.workers[x].state == Idle { assert Orphaning(s, t, w).workers[x].state == Idle; }
  }

  lemma DiedWith(s: State, t: TaskId, w: WorkerId, choice: Option<WorkerId>)
    requires RunsOn(s, t, w) && s.recovery == [] && (choice.Some? <==> SomeoneIdle(s))
    requires choice.Some? ==>
      choice.value in s.workers && Orphaning(s, t, w).workers[choice.value].state == Idle
    ensures Died(s, Settle(Orphaning(s, t, w), t, choice), t, w)
  {
    if choice.Some? { assert NowOn(s, Settle(Orphaning(s, t, w), t, choice), t, choice.value); }
  }

  // One that ran nothing only changes its state.
  lemma SpareDeathOutcome(config: Config, s: State, w: WorkerId)
    requires Inv(config, s) && w in s.workers && s.workers[w].state != Busy
    ensures Closed(s)
    ensures HandleDeadWorker(config, s, w) == s.(workers := s.workers[w := s.workers[w].(state := WorkerState.Failed)])
  {
    HandleDeadWorkerKeeps(config, s, w);
    AffectedIs(config, s, w);
    OrphansNone(SetWorker(s, w, s.workers[w].(state := WorkerState.Failed)));
  }
}
