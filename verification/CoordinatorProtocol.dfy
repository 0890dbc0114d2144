// engine/distributed/coordinator.py over engine/distributed/core.py: the swarm coordinator as a
// transition system. The classes that carry it out are in Coordinator.dfy.

module CoordinatorProtocol {
  import opened Basics
  import opened Sequences

  type WorkerId = string
  type TaskId = string

  const MAX_RETRIES := 3

  datatype Strategy = RoundRobin | LeastLoaded | CapabilityFirst | Random

  datatype WorkerState = Idle | Busy | Offline | Failed

  datatype Worker = Worker(capabilities: seq<string>, state: WorkerState, jobsCompleted: nat, jobsFailed: nat) {
    function Freed(): Worker {
      this.(state := Idle)
    }
  }

  datatype TaskStatus = Pending | Assigned | Retrying | Orphaned | Completed | Failed

  datatype Task = Task(worker: Option<WorkerId>, required: seq<string>, status: TaskStatus, retries: nat)

  // The registry's key order and the selection strategy do not change.
  datatype Config = Config(order: seq<WorkerId>, strategy: Strategy)

  datatype State = State(
    workers: map<WorkerId, Worker>,
    tasks: map<TaskId, Task>,       // every task ever submitted
    submitted: seq<TaskId>,         // ... in submission order
    tracked: seq<TaskId>,           // the keys of the assignment table, in insertion order
    pending: seq<TaskId>,
    completed: seq<TaskId>,
    failed: seq<TaskId>,
    recovery: seq<TaskId>)

  // ---------- SelectionStrategy.select ----------

  predicate HasAll(worker: Worker, required: seq<string>) {
    forall c :: c in required ==> c in worker.capabilities
  }

  // The idle workers that have all the required capabilities, in registry order.
  function IdleAmong(order: seq<WorkerId>, workers: map<WorkerId, Worker>, required: seq<string>): (r: seq<WorkerId>)
    ensures forall w :: w in r <==>
      w in order && w in workers && workers[w].state == Idle && HasAll(workers[w], required)
  {
    if order == [] then []
    else
      var front, w := IdleAmong(order[..|order| - 1], workers, required), order[|order| - 1];
      if w in workers && workers[w].state == Idle && HasAll(workers[w], required) then front + [w] else front
  }

  function Key(strategy: Strategy, worker: Worker): int {
    match strategy
    case LeastLoaded => worker.jobsCompleted
    case CapabilityFirst => -|worker.capabilities|
    case _ => 0
  }

  // The first of the listed workers with the least key.
  function FirstLeast(ids: seq<WorkerId>, workers: map<WorkerId, Worker>, strategy: Strategy): (r: WorkerId)
    requires ids != [] && forall w :: w in ids ==> w in workers
    ensures r in ids && forall w :: w in ids ==> Key(strategy, workers[r]) <= Key(strategy, workers[w])
  {
    if |ids| == 1 then ids[0]
    else
      var best := FirstLeast(ids[..|ids| - 1], workers, strategy);
      var last := ids[|ids| - 1];
      if Key(strategy, workers[last]) < Key(strategy, workers[best]) then last else best
  }

  // The idle workers with the capabilities asked for, or all idle workers if there is none.
  function Eligible(order: seq<WorkerId>, workers: map<WorkerId, Worker>, required: seq<string>): seq<WorkerId> {
    var capable := IdleAmong(order, workers, required);
    if capable != [] then capable else IdleAmong(order, workers, [])
  }

  // None exactly when no worker is idle; a capable idle worker is preferred to any other, and the
  // least key in the strategy's order to any greater.
  function Select(config: Config, workers: map<WorkerId, Worker>, required: seq<string>): (r: Option<WorkerId>)
    ensures r.None? <==> forall w :: w in config.order && w in workers ==> workers[w].state != Idle
    ensures r.Some? ==> r.value in config.order && r.value in workers && workers[r.value].state == Idle
    ensures forall w ::
      (w in config.order && w in workers && workers[w].state == Idle && HasAll(workers[w], required)) ==>
        && r.Some? && HasAll(workers[r.value], required)
        && Key(config.strategy, workers[r.value]) <= Key(config.strategy, workers[w])
  {
    var available := Eligible(config.order, workers, required);
    if available == [] then None
    else
      assert available[0] in available;
      Some(FirstLeast(available, workers, config.strategy))
  }

  // The workers to choose from: the capable idle ones, or every idle one if there is none.
  ghost predicate InPool(config: Config, workers: map<WorkerId, Worker>, required: seq<string>, w: WorkerId) {
    && w in config.order && w in workers && workers[w].state == Idle
    && ((forall c :: c in required ==> c in workers[w].capabilities) ||
        forall u :: u in config.order && u in workers && workers[u].state == Idle ==>
          exists c :: c in required && c !in workers[u].capabilities)
  }

  lemma PoolIsEligible(config: Config, workers: map<WorkerId, Worker>, required: seq<string>, w: WorkerId)
    ensures w in Eligible(config.order, workers, required) <==> InPool(config, workers, required, w)
  {
    var capable := IdleAmong(config.order, workers, required);
    if capable != [] { assert capable[0] in capable; }
  }

  // x comes before y in the list.
  ghost predicate Precedes(list: seq<WorkerId>, x: WorkerId, y: WorkerId) {
    exists i :: 0 <= i < |list| && list[i] == y && x in list[..i]
  }

  lemma {:induction false} FirstLeastIsFirst(ids: seq<WorkerId>, workers: map<WorkerId, Worker>, strategy: Strategy,
                                             w: WorkerId)
    requires ids != [] && (forall v :: v in ids ==> v in workers) && NoDup(ids)
    ensures var r := FirstLeast(ids, workers, strategy);
      Precedes(ids, w, r) ==> w in workers && Key(strategy, workers[r]) < Key(strategy, workers[w])
  {
    var r := FirstLeast(ids, workers, strategy);
    if Precedes(ids, w, r) {
      var i :| 0 <= i < |ids| && ids[i] == r && w in ids[..i];
      assert w in ids;
      var front, last := ids[..|ids| - 1], ids[|ids| - 1];
      if |ids| > 1 {
        if i == |front| {
          assert front == ids[..i] && r == last && r !in front;
        } else {
          assert front[i] == r && front[..i] == ids[..i];
          FirstLeastIsFirst(front, workers, strategy, w);
        }
      }
    }
  }

  lemma {:induction false} IdleAmongKeepsOrder(order: seq<WorkerId>, workers: map<WorkerId, Worker>,
                                               required: seq<string>, x: WorkerId, y: WorkerId)
    requires NoDup(order) && x in IdleAmong(order, workers, required) && y in IdleAmong(order, workers, required)
    ensures NoDup(IdleAmong(order, workers, required))
    ensures Precedes(order, x, y) ==> Precedes(IdleAmong(order, workers, required), x, y)
  {
    IdleAmongDistinct(order, workers, required);
    if Precedes(order, x, y) {
      var front, last := order[..|order| - 1], order[|order| - 1];
      var rest, all := IdleAmong(front, workers, required), IdleAmong(order, workers, required);
      assert order == front + [last] && (all == rest + [last] || all == rest);
      assert forall w :: w in rest ==> w in front;
      if x in rest && y in rest { IdleAmongKeepsOrder(front, workers, required, x, y); }
      hide IdleAmong, HasAll, NoDup, Precedes;
      PrecedesStep(front, last, rest, all, x, y);
    }
  }

  lemma PrecedesStep(front: seq<WorkerId>, last: WorkerId, rest: seq<WorkerId>, all: seq<WorkerId>, x: WorkerId,
                     y: WorkerId)
    requires last !in front && (forall w :: w in rest ==> w in front) && (all == rest || all == rest + [last])
    requires Precedes(front + [last], x, y) && x in all && y in all
    requires x in rest && y in rest && Precedes(front, x, y) ==> Precedes(rest, x, y)
    ensures Precedes(all, x, y)
  {
    hide Precedes;
    PrecedesAppend(front, last, x, y);
    PrecedesAppend(rest, last, x, y);
  }

  lemma PrecedesAppend(list: seq<WorkerId>, last: WorkerId, x: WorkerId, y: WorkerId)
    requires last !in list
    ensures y == last ==> (Precedes(list + [last], x, y) <==> x in list)
    ensures y != last ==> (Precedes(list + [last], x, y) <==> Precedes(list, x, y))
    ensures Precedes(list, x, y) ==> x in list && y in list
  {
    var all := list + [last];
    if Precedes(all, x, y) {
      var i :| 0 <= i < |all| && all[i] == y && x in all[..i];
      assert i <= |list| && all[..i] == list[..i];
      assert i < |list| ==> list[i] == y;
    }
    if Precedes(list, x, y) {
      var i :| 0 <= i < |list| && list[i] == y && x in list[..i];
      assert all[i] == y && all[..i] == list[..i];
    }
    if y == last && x in list { assert all[|list|] == y && all[..|list|] == list; }
  }

  lemma {:induction false} IdleAmongDistinct(order: seq<WorkerId>, workers: map<WorkerId, Worker>,
                                             required: seq<string>)
    requires NoDup(order)
    ensures NoDup(IdleAmong(order, workers, required))
  {
    if order != [] {
      var front, last := order[..|order| - 1], order[|order| - 1];
      IdleAmongDistinct(front, workers, required);
      var rest := IdleAmong(front, workers, required);
      assert (rest + [last])[..|rest|] == rest;
    }
  }

  // The selection takes the least key of the pool, and the first in registry order of several.
  lemma SelectIsFirstLeast(config: Config, workers: map<WorkerId, Worker>, required: seq<string>, w: WorkerId)
    requires NoDup(config.order) && InPool(config, workers, required, w)
    ensures var choice := Select(config, workers, required);
      && choice.Some? && InPool(config, workers, required, choice.value)
      && Key(config.strategy, workers[choice.value]) <= Key(config.strategy, workers[w])
      && (Precedes(config.order, w, choice.value) ==>
            Key(config.strategy, workers[choice.value]) < Key(config.strategy, workers[w]))
  {
    PoolIsEligible(config, workers, required, w);
    var pool := Eligible(config.order, workers, required);
    var r := FirstLeast(pool, workers, config.strategy);
    PoolIsEligible(config, workers, required, r);
    if IdleAmong(config.order, workers, required) != [] {
      IdleAmongKeepsOrder(config.order, workers, required, w, r);
    } else {
      IdleAmongKeepsOrder(config.order, workers, [], w, r);
    }
    FirstLeastIsFirst(pool, workers, config.strategy, w);
  }

  // The least loaded strategy takes an idle worker of the pool with the fewest completed jobs, and the
  // first of several.
  lemma LeastLoadedTakesFewest(order: seq<WorkerId>, workers: map<WorkerId, Worker>, required: seq<string>, w: WorkerId)
    requires NoDup(order) && InPool(Config(order, LeastLoaded), workers, required, w)
    ensures var config := Config(order, LeastLoaded);
      var choice := Select(config, workers, required);
      && choice.Some? && InPool(config, workers, required, choice.value)
      && workers[choice.value].jobsCompleted <= workers[w].jobsCompleted
      && (Precedes(order, w, choice.value) ==> workers[choice.value].jobsCompleted < workers[w].jobsCompleted)
  {
    SelectIsFirstLeast(Config(order, LeastLoaded), workers, required, w);
  }

  // The capability strategy takes one with the most capabilities, and the first of several.
  lemma CapabilityFirstTakesMost(order: seq<WorkerId>, workers: map<WorkerId, Worker>, required: seq<string>,
                                 w: WorkerId)
    requires NoDup(order) && InPool(Config(order, CapabilityFirst), workers, required, w)
    ensures var config := Config(order, CapabilityFirst);
      var choice := Select(config, workers, required);
      && choice.Some? && InPool(config, workers, required, choice.value)
      && |workers[choice.value].capabilities| >= |workers[w].capabilities|
      && (Precedes(order, w, choice.value) ==> |workers[choice.value].capabilities| > |workers[w].capabilities|)
  {
    SelectIsFirstLeast(Config(order, CapabilityFirst), workers, required, w);
  }

  // The other two take the first of the pool.
  lemma OthersTakeFirst(config: Config, workers: map<WorkerId, Worker>, required: seq<string>, w: WorkerId)
    requires config.strategy in {RoundRobin, Random} && NoDup(config.order) && InPool(config, workers, required, w)
    ensures var choice := Select(config, workers, required);
      choice.Some? && InPool(config, workers, required, choice.value) && !Precedes(config.order, w, choice.value)
  {
    SelectIsFirstLeast(config, workers, required, w);
  }

  // ---------- The steps ----------

  function SetTask(s: State, t: TaskId, v: Task): State {
    s.(tasks := s.tasks[t := v])
  }

  function SetWorker(s: State, w: WorkerId, v: Worker): State {
    s.(workers := s.workers[w := v])
  }

  function Track(tracked: seq<TaskId>, t: TaskId): seq<TaskId> {
    if t in tracked then tracked else tracked + [t]
  }

  function Assign(s: State, t: TaskId, w: WorkerId): State
    requires t in s.tasks && w in s.workers
  {
    s.(tasks := s.tasks[t := s.tasks[t].(worker := Some(w), status := Assigned)],
       workers := s.workers[w := s.workers[w].(state := Busy)],
       tracked := Track(s.tracked, t))
  }

  function ProcessPending(config: Config, s: State): State
    requires forall t :: t in s.pending ==> t in s.tasks
    decreases |s.pending|
  {
    if s.pending == [] then s
    else
      var t := s.pending[0];
      match Select(config, s.workers, s.tasks[t].required)
      case None => s
      case Some(w) => ProcessPending(config, Assign(s.(pending := s.pending[1..]), t, w))
  }

  // Give t to the worker chosen for it, or queue it.
  function Settle(s: State, t: TaskId, choice: Option<WorkerId>): State
    requires t in s.tasks && (choice.Some? ==> choice.value in s.workers)
  {
    match choice
    case Some(w) => Assign(s, t, w)
    case None => s.(pending := s.pending + [t])
  }

  function WithNewTask(s: State, t: TaskId, required: seq<string>): State {
    s.(tasks := s.tasks[t := Task(None, if required == [] then ["execute"] else required, Pending, 0)],
       submitted := s.submitted + [t])
  }

  // The selection sees the capabilities as given, the task keeps the default when none are given.
  function Submit(config: Config, s: State, t: TaskId, required: seq<string>): State {
    Settle(WithNewTask(s, t, required), t, Select(config, s.workers, required))
  }

  // RemoteExecution.complete and RemoteExecution.fail: a worker id that is not registered is ignored.
  function WorkerCompleted(s: State, worker: Option<WorkerId>): State {
    if worker.Some? && worker.value in s.workers then
      var v := s.workers[worker.value];
      SetWorker(s, worker.value, v.Freed().(jobsCompleted := v.jobsCompleted + 1))
    else s
  }

  function WorkerFailed(s: State, worker: Option<WorkerId>): State {
    if worker.Some? && worker.value in s.workers then
      var v := s.workers[worker.value];
      SetWorker(s, worker.value, v.Freed().(jobsFailed := v.jobsFailed + 1))
    else s
  }

  ghost predicate Closed(s: State) {
    && (forall t :: t in s.tracked ==> t in s.tasks)
    && (forall t :: t in s.pending ==> t in s.tasks)
    && (forall t :: t in s.recovery ==> t in s.tasks)
  }

  function Finished(s: State, t: TaskId): State
    requires t in s.tasks
  {
    var s1 := WorkerCompleted(SetTask(s, t, s.tasks[t].(status := Completed)), s.tasks[t].worker);
    s1.(completed := s.completed + [t])
  }

  function Complete(config: Config, s: State, t: TaskId): State
    requires Closed(s)
  {
    if t !in s.tracked then s else ProcessPending(config, Finished(s, t))
  }

  // The task with one more failure on it.
  function Charged(s: State, t: TaskId): Task
    requires t in s.tasks
  {
    s.tasks[t].(retries := s.tasks[t].retries + 1)
  }

  // v is the task with its retry counted.
  function GivenUp(s: State, t: TaskId, v: Task): State {
    var s1 := WorkerFailed(SetTask(s, t, v.(status := TaskStatus.Failed)), v.worker);
    s1.(failed := s.failed + [t])
  }

  function Released(s: State, t: TaskId, v: Task): State {
    WorkerFailed(SetTask(s, t, v.(status := Retrying)), v.worker)
  }

  // Writing the retry count first and the status later makes no difference.
  lemma ChargedFirst(s: State, t: TaskId, v: Task, status: TaskStatus)
    ensures GivenUp(SetTask(s, t, v), t, v.(status := status)) == GivenUp(s, t, v)
    ensures GivenUp(s, t, v.(status := status)) == GivenUp(s, t, v)
    ensures Released(SetTask(s, t, v), t, v) == Released(s, t, v)
  {
    assert s.tasks[t := v][t := v.(status := TaskStatus.Failed)] == s.tasks[t := v.(status := TaskStatus.Failed)];
    assert s.tasks[t := v][t := v.(status := Retrying)] == s.tasks[t := v.(status := Retrying)];
  }

  // A task with retries left is handed to a selected worker at once. When none is selected it is
  // queued, and then treated as failed for good as well.
  function Fail(config: Config, s: State, t: TaskId): State
    requires Closed(s)
  {
    if t !in s.tracked then s
    else
      var v := Charged(s, t);
      if v.retries < MAX_RETRIES then
        var s1 := Released(s, t, v);
        match Select(config, s1.workers, v.required)
        case Some(w) => Assign(s1, t, w)
        case None => ProcessPending(config, GivenUp(s1.(pending := s1.pending + [t]), t, v))
      else
        ProcessPending(config, GivenUp(s, t, v))
  }

  lemma FailUnfolds(config: Config, s: State, t: TaskId)
    requires Closed(s) && t in s.tracked
    ensures var v := Charged(s, t);
      var s1 := Released(s, t, v);
      var choice := Select(config, s1.workers, v.required);
      var s2 := GivenUp(if v.retries < MAX_RETRIES then s1.(pending := s1.pending + [t]) else s, t, v);
      && (v.retries < MAX_RETRIES && choice.Some? ==> Fail(config, s, t) == Settle(s1, t, choice))
      && (v.retries >= MAX_RETRIES || choice.None? ==>
            (forall u :: u in s2.pending ==> u in s2.tasks) && Fail(config, s, t) == ProcessPending(config, s2))
  {
  }

  function Affected(s: State, ids: seq<TaskId>, w: WorkerId): (r: seq<TaskId>)
    ensures forall t :: t in r <==>
      t in ids && t in s.tasks && s.tasks[t].worker == Some(w) && s.tasks[t].status in {Assigned, Retrying}
    ensures NoDup(ids) ==> NoDup(r)
  {
    if ids == [] then []
    else
      var front, t := Affected(s, ids[..|ids| - 1], w), ids[|ids| - 1];
      if t in s.tasks && s.tasks[t].worker == Some(w) && s.tasks[t].status in {Assigned, Retrying}
      then front + [t] else front
  }

  function Orphan(s: State, ids: seq<TaskId>): State {
    s.(tasks := map t | t in s.tasks ::
                  if t in ids then s.tasks[t].(status := Orphaned, worker := None) else s.tasks[t],
       recovery := s.recovery + ids)
  }

  // The first orphan that finds no worker goes to the pending queue and ends the recovery.
  function Recover(config: Config, s: State): State
    requires forall t :: t in s.recovery ==> t in s.tasks
    decreases |s.recovery|
  {
    if s.recovery == [] then s
    else
      var t := s.recovery[0];
      var s1 := s.(recovery := s.recovery[1..]);
      match Select(config, s.workers, s.tasks[t].required)
      case None => s1.(pending := s.pending + [t])
      case Some(w) => Recover(config, Assign(s1, t, w))
  }

  lemma RecoverUnfolds(config: Config, s: State)
    requires (forall t :: t in s.recovery ==> t in s.tasks) && s.recovery != []
    ensures var t := s.recovery[0];
      var choice := Select(config, s.workers, s.tasks[t].required);
      var s1 := Settle(s.(recovery := s.recovery[1..]), t, choice);
      && (choice.None? ==> Recover(config, s) == s1)
      && (choice.Some? ==> forall t :: t in s1.recovery ==> t in s1.tasks)
      && (choice.Some? ==> Recover(config, s) == Recover(config, s1))
  {
  }

  lemma OrphansNone(s: State)
    ensures Orphan(s, []) == s
  {
  }

  lemma OrphansOneTask(s: State, t: TaskId)
    requires t in s.tasks
    ensures Orphan(s, [t]) ==
      SetTask(s, t, s.tasks[t].(status := Orphaned, worker := None)).(recovery := s.recovery + [t])
  {
  }

  lemma OrphansOneMore(s: State, ids: seq<TaskId>, t: TaskId)
    ensures Orphan(Orphan(s, ids), [t]) == Orphan(s, ids + [t])
  {
  }

  lemma {:induction false} AffectedSame(s: State, s': State, ids: seq<TaskId>, w: WorkerId)
    requires s.tasks == s'.tasks
    ensures Affected(s, ids, w) == Affected(s', ids, w)
  {
    if ids != [] { AffectedSame(s, s', ids[..|ids| - 1], w); }
  }

  function HandleDeadWorker(config: Config, s: State, w: WorkerId): State
    requires Closed(s)
  {
    if w !in s.workers then s
    else
      var s1 := SetWorker(s, w, s.workers[w].(state := WorkerState.Failed));
      Recover(config, Orphan(s1, Affected(s, s.tracked, w)))
  }

  // ---------- What every step keeps ----------

  ghost predicate Runs(s: State, t: TaskId, w: WorkerId) {
    t in s.tasks && s.tasks[t].status == Assigned && s.tasks[t].worker == Some(w)
  }

  ghost predicate Manned(s: State, w: WorkerId) {
    exists t :: Runs(s, t, w)
  }

  // Where task t is, given that the tasks in hand are momentarily in none of the lists.
  ghost predicate TaskPlaced(s: State, hand: set<TaskId>, t: TaskId)
    requires t in s.tasks
  {
    var v := s.tasks[t];
    && (t in s.pending <==> t !in hand && v.status in {Pending, Orphaned})
    && (t in s.completed <==> t !in hand && v.status == Completed)
    && (t in s.failed <==> t !in hand && v.status == TaskStatus.Failed)
    && (t !in hand ==> v.status != Retrying)
    && (v.status == Assigned ==>
          t !in hand && v.worker.Some? && v.worker.value in s.workers && s.workers[v.worker.value].state == Busy)
    && (v.status != Pending ==> t in s.tracked)
    && v.retries <= MAX_RETRIES && (v.status == TaskStatus.Failed <==> v.retries == MAX_RETRIES)
  }

  // The lists have no repeats and hold submitted tasks only.
  ghost predicate Listed(config: Config, s: State, hand: set<TaskId>) {
    && NoDup(config.order) && Elems(config.order) == s.workers.Keys
    && NoDup(s.submitted) && Elems(s.submitted) == s.tasks.Keys
    && NoDup(s.tracked) && NoDup(s.pending) && NoDup(s.completed) && NoDup(s.failed)
    && Elems(s.tracked) + Elems(s.pending) + Elems(s.completed) + Elems(s.failed) + hand <= s.tasks.Keys
  }

  // The busy workers and the assigned tasks match one to one.
  ghost predicate Matched(s: State) {
    && (forall t, u, w {:trigger Runs(s, t, w), Runs(s, u, w)} :: Runs(s, t, w) && Runs(s, u, w) ==> t == u)
    && (forall w {:trigger Manned(s, w)} :: w in s.workers && s.workers[w].state == Busy ==> Manned(s, w))
  }

  // Every task is in exactly one place.
  ghost predicate Placed(config: Config, s: State, hand: set<TaskId>) {
    && Listed(config, s, hand) && Matched(s)
    && (forall t {:trigger TaskPlaced(s, hand, t)} :: t in s.tasks ==> TaskPlaced(s, hand, t))
  }

  ghost predicate NoIdle(s: State) {
    forall w {:trigger s.workers[w]} :: w in s.workers ==> s.workers[w].state != Idle
  }

  ghost function Total<K>(ids: seq<K>, m: map<K, nat>): nat {
    if ids == [] then 0
    else Total(ids[..|ids| - 1], m) + if ids[|ids| - 1] in m then m[ids[|ids| - 1]] else 0
  }

  ghost function FailureCounts(s: State): map<WorkerId, nat> {
    map w | w in s.workers :: s.workers[w].jobsFailed
  }

  ghost function CompletionCounts(s: State): map<WorkerId, nat> {
    map w | w in s.workers :: s.workers[w].jobsCompleted
  }

  ghost function RetryCounts(s: State): map<TaskId, nat> {
    map t | t in s.tasks :: s.tasks[t].retries
  }

  // What the workers count is what happened to the tasks.
  ghost predicate Counted(config: Config, s: State) {
    && Total(config.order, FailureCounts(s)) == Total(s.submitted, RetryCounts(s))
    && Total(config.order, CompletionCounts(s)) == |s.completed|
  }

  ghost predicate Inv(config: Config, s: State) {
    && Placed(config, s, {})
    && s.recovery == []
    && (s.pending != [] ==> NoIdle(s))
    && Counted(config, s)
  }

  // ---------- Moving one task ----------

  lemma {:induction false} TotalUpdate<K>(ids: seq<K>, m: map<K, nat>, k: K, v: nat)
    requires NoDup(ids)
    ensures Total(ids, m[k := v]) ==
      Total(ids, m) + if k in ids then v - (if k in m then m[k] else 0) else 0
  {
    if ids != [] { TotalUpdate(ids[..|ids| - 1], m, k, v); }
  }

  // Taking a running task off its worker, whatever becomes of the worker.
  lemma TakeKeeps(config: Config, s: State, t: TaskId, w: WorkerId, v: Task, worker: Worker)
    requires Placed(config, s, {}) && Runs(s, t, w)
    requires v.status !in {Pending, Assigned} && v.retries <= MAX_RETRIES
    requires v.status == TaskStatus.Failed <==> v.retries == MAX_RETRIES
    requires worker.state != Busy
    ensures Placed(config, SetWorker(SetTask(s, t, v), w, worker), {t})
  {
    var s' := SetWorker(SetTask(s, t, v), w, worker);
    assert TaskPlaced(s, {}, t);
    forall u | u in s'.tasks ensures TaskPlaced(s', {t}, u) {
      assert TaskPlaced(s, {}, u);
      if u != t && s.tasks[u].status == Assigned { assert Runs(s, u, s.tasks[u].worker.value); }
    }
    forall x | x in s'.workers && s'.workers[x].state == Busy ensures Manned(s', x) {
      assert Manned(s, x);
      var u :| Runs(s, u, x);
      assert Runs(s', u, x);
    }
    assert forall u, x :: Runs(s', u, x) ==> Runs(s, u, x);
  }

  // Giving a task in hand to an idle worker.
  lemma AssignKeeps(config: Config, s: State, t: TaskId, w: WorkerId)
    requires Placed(config, s, {t})
    requires s.tasks[t].retries < MAX_RETRIES
    requires w in s.workers && s.workers[w].state == Idle
    ensures Placed(config, Assign(s, t, w), {})
  {
    var s' := Assign(s, t, w);
    assert TaskPlaced(s, {t}, t);
    AssignPlaces(s, t, w, t);
    forall u | u in s.tasks ensures TaskPlaced(s', {}, u) && !Runs(s, u, w) {
      assert TaskPlaced(s, {t}, u);
      AssignPlaces(s, t, w, u);
    }
    hide TaskPlaced, Matched, Listed;
    AssignLists(config, s, t, w);
    assert forall u :: Runs(s, u, w) ==> u in s.tasks;
    AssignMatches(s, t, w);
  }

  lemma AssignLists(config: Config, s: State, t: TaskId, w: WorkerId)
    requires Listed(config, s, {t}) && t in s.tasks && w in s.workers
    ensures Listed(config, Assign(s, t, w), {})
  {
    if t !in s.tracked { NoDupAppend(s.tracked, t); }
  }

  lemma AssignMatches(s: State, t: TaskId, w: WorkerId)
    requires Matched(s) && t in s.tasks && w in s.workers
    requires s.tasks[t].status != Assigned && forall u :: !Runs(s, u, w)
    ensures Matched(Assign(s, t, w))
  {
    var s' := Assign(s, t, w);
    forall u, x ensures Runs(s', u, x) <==> (Runs(s, u, x) || (u == t && x == w)) {}
    forall x | x in s'.workers && s'.workers[x].state == Busy ensures Manned(s', x) {
      if x == w {
        assert Runs(s', t, w);
      } else {
        assert Manned(s, x);
        var u :| Runs(s, u, x);
        assert Runs(s', u, x);
      }
    }
  }

  // Where the same tasks run on the same busy workers.
  lemma SameMatches(s: State, s': State)
    requires Matched(s) && s'.workers == s.workers && forall u, x :: Runs(s', u, x) <==> Runs(s, u, x)
    ensures Matched(s')
  {
    forall x | x in s'.workers && s'.workers[x].state == Busy ensures Manned(s', x) {
      assert Manned(s, x);
      var u :| Runs(s, u, x);
      assert Runs(s', u, x);
    }
  }

  lemma AssignPlaces(s: State, t: TaskId, w: WorkerId, u: TaskId)
    requires t in s.tasks && u in s.tasks && TaskPlaced(s, {t}, u) && TaskPlaced(s, {t}, t)
    requires s.tasks[t].retries < MAX_RETRIES && w in s.workers && s.workers[w].state == Idle
    ensures TaskPlaced(Assign(s, t, w), {}, u) && !Runs(s, u, w)
    ensures s.tasks[t].status != Assigned
  {
  }

  // Steps that only move tasks between lists leave the running tasks alone.
  lemma RelistKeeps(config: Config, s: State, hand: set<TaskId>, s': State, hand': set<TaskId>)
    requires Placed(config, s, hand)
    requires s'.(pending := s.pending, completed := s.completed, failed := s.failed, recovery := s.recovery) == s
    requires NoDup(s'.pending) && NoDup(s'.completed) && NoDup(s'.failed)
    requires Elems(s'.pending) + Elems(s'.completed) + Elems(s'.failed) + hand' <= s.tasks.Keys
    requires forall t {:trigger TaskPlaced(s', hand', t)} :: t in s.tasks ==> TaskPlaced(s', hand', t)
    ensures Placed(config, s', hand')
  {
    SameMatches(s, s');
  }

  // Taking the head of the pending queue in hand.
  lemma PopKeeps(config: Config, s: State)
    requires Placed(config, s, {}) && s.pending != []
    ensures var t := s.pending[0];
      && Placed(config, s.(pending := s.pending[1..]), {t})
      && s.tasks[t].retries < MAX_RETRIES
  {
    var t, s' := s.pending[0], s.(pending := s.pending[1..]);
    NoDupTail(s.pending);
    assert t in s.pending && t in Elems(s.pending);
    assert TaskPlaced(s, {}, t);
    forall u | u in s'.tasks ensures TaskPlaced(s', {t}, u) {
      assert TaskPlaced(s, {}, u);
      assert u in s'.pending <==> u in Elems(s'.pending);
      assert u in s.pending <==> u in Elems(s.pending);
    }
    RelistKeeps(config, s, {}, s', {t});
  }

  ghost function File(s: State, t: TaskId): State
    requires t in s.tasks
  {
    match s.tasks[t].status
    case Completed => s.(completed := s.completed + [t])
    case Failed => s.(failed := s.failed + [t])
    case _ => s.(pending := s.pending + [t])
  }

  // Putting a task in hand where its status says it belongs.
  lemma FileKeeps(config: Config, s: State, t: TaskId)
    requires Placed(config, s, {t}) && s.tasks[t].status != Retrying
    ensures Placed(config, File(s, t), {})
  {
    var s' := File(s, t);
    assert TaskPlaced(s, {t}, t);
    FileLists(config, s, t);
    forall u | u in s'.tasks ensures TaskPlaced(s', {}, u) { FilePlaces(s, t, u); }
    SameMatches(s, s');
  }

  lemma FileLists(config: Config, s: State, t: TaskId)
    requires Listed(config, s, {t}) && t in s.tasks && TaskPlaced(s, {t}, t)
    ensures Listed(config, File(s, t), {})
  {
    match s.tasks[t].status {
      case Completed => NoDupAppend(s.completed, t);
      case Failed => NoDupAppend(s.failed, t);
      case _ => NoDupAppend(s.pending, t);
    }
  }

  lemma FilePlaces(s: State, t: TaskId, u: TaskId)
    requires t in s.tasks && u in s.tasks && TaskPlaced(s, {t}, u) && TaskPlaced(s, {t}, t)
    requires s.tasks[t].status != Retrying
    ensures TaskPlaced(File(s, t), {}, u)
  {
  }

  // ---------- Draining the pending queue ----------

  lemma DrainUnfolds(config: Config, s: State)
    requires (forall t :: t in s.pending ==> t in s.tasks) && s.pending != []
    ensures var choice := Select(config, s.workers, s.tasks[s.pending[0]].required);
      && (choice.None? ==> ProcessPending(config, s) == s)
      && (choice.Some? ==>
            var s1 := Assign(s.(pending := s.pending[1..]), s.pending[0], choice.value);
            (forall t :: t in s1.pending ==> t in s1.tasks) && ProcessPending(config, s) == ProcessPending(config, s1))
  {
  }

  // The number of tasks that leave the pending queue.
  ghost function Drained(config: Config, s: State): (k: nat)
    requires forall t :: t in s.pending ==> t in s.tasks
    ensures k <= |s.pending|
    decreases |s.pending|
  {
    if s.pending == [] then 0
    else
      var t := s.pending[0];
      match Select(config, s.workers, s.tasks[t].required)
      case None => 0
      case Some(w) => 1 + Drained(config, Assign(s.(pending := s.pending[1..]), t, w))
  }

  // Draining assigns the first tasks of the queue and leaves the other tasks as they were.
  lemma {:induction false} ProcessPendingDrains(config: Config, s: State)
    requires forall t :: t in s.pending ==> t in s.tasks
    ensures var s', k := ProcessPending(config, s), Drained(config, s);
      && s'.pending == s.pending[k..]
      && s'.tasks.Keys == s.tasks.Keys
      && (forall t :: t in s.pending[..k] ==> t in s'.tasks && s'.tasks[t].status == Assigned)
      && (forall t :: t in s.tasks && t !in s.pending[..k] ==> s'.tasks[t] == s.tasks[t])
    decreases |s.pending|
  {
    hide Select;
    if s.pending != [] {
      var t := s.pending[0];
      match Select(config, s.workers, s.tasks[t].required)
      case None =>
      case Some(w) =>
        var s1 := Assign(s.(pending := s.pending[1..]), t, w);
        ProcessPendingDrains(config, s1);
        var s', k := ProcessPending(config, s1), Drained(config, s1);
        assert s.pending[k + 1..] == s1.pending[k..];
        TakeCons(s.pending, k);
        assert s'.tasks[t].status == Assigned by {
          if t !in s1.pending[..k] { assert s'.tasks[t] == s1.tasks[t]; }
        }
    }
  }

  // It touches no other list, no retry count and no worker's counter.
  lemma {:induction false} ProcessPendingLeaves(config: Config, s: State)
    requires forall t :: t in s.pending ==> t in s.tasks
    ensures var s' := ProcessPending(config, s);
      && s'.(workers := s.workers, tasks := s.tasks, tracked := s.tracked, pending := s.pending) == s
      && FailureCounts(s') == FailureCounts(s) && CompletionCounts(s') == CompletionCounts(s)
      && RetryCounts(s') == RetryCounts(s)
    decreases |s.pending|
  {
    if s.pending != [] {
      var t := s.pending[0];
      match Select(config, s.workers, s.tasks[t].required)
      case None =>
      case Some(w) =>
        AssignLeaves(s.(pending := s.pending[1..]), t, w);
        ProcessPendingLeaves(config, Assign(s.(pending := s.pending[1..]), t, w));
    }
  }

  lemma AssignLeaves(s: State, t: TaskId, w: WorkerId)
    requires t in s.tasks && w in s.workers
    ensures var s' := Assign(s, t, w);
      && FailureCounts(s') == FailureCounts(s) && CompletionCounts(s') == CompletionCounts(s)
      && RetryCounts(s') == RetryCounts(s)
  {
  }

  lemma {:induction false} ProcessPendingKeeps(config: Config, s: State)
    requires Placed(config, s, {})
    ensures forall t :: t in s.pending ==> t in s.tasks
    ensures var s' := ProcessPending(config, s);
      Placed(config, s', {}) && (s'.pending != [] ==> NoIdle(s'))
    decreases |s.pending|
  {
    forall t | t in s.pending ensures t in s.tasks { assert t in Elems(s.pending); }
    if s.pending != [] {
      var t := s.pending[0];
      match Select(config, s.workers, s.tasks[t].required)
      case None =>
        forall w | w in s.workers ensures s.workers[w].state != Idle { assert w in Elems(config.order); }
      case Some(w) =>
        PopKeeps(config, s);
        AssignKeeps(config, s.(pending := s.pending[1..]), t, w);
        ProcessPendingKeeps(config, Assign(s.(pending := s.pending[1..]), t, w));
    }
  }

  // ---------- Every step keeps the invariant ----------

  lemma PlacedIsClosed(config: Config, s: State, hand: set<TaskId>)
    requires Placed(config, s, hand)
    ensures forall t :: t in s.tracked ==> t in s.tasks
    ensures forall t :: t in s.pending ==> t in s.tasks
  {
    forall t | t in s.tracked ensures t in s.tasks { assert t in Elems(s.tracked); }
    forall t | t in s.pending ensures t in s.tasks { assert t in Elems(s.pending); }
  }

  // A step that ends by draining the queue.
  lemma DrainKeepsInv(config: Config, s: State)
    requires Placed(config, s, {}) && s.recovery == [] && Counted(config, s)
    ensures Closed(s) && Inv(config, ProcessPending(config, s))
  {
    PlacedIsClosed(config, s, {});
    ProcessPendingKeeps(config, s);
    ProcessPendingLeaves(config, s);
  }

  // How the sums move when task t and its worker w are updated together.
  lemma TotalsAfter(config: Config, s: State, t: TaskId, v: Task, w: WorkerId, worker: Worker)
    requires NoDup(config.order) && w in config.order && NoDup(s.submitted) && t in s.submitted
    requires t in s.tasks && w in s.workers
    ensures var s' := SetWorker(SetTask(s, t, v), w, worker);
      && Total(config.order, FailureCounts(s')) ==
           Total(config.order, FailureCounts(s)) - s.workers[w].jobsFailed + worker.jobsFailed
      && Total(config.order, CompletionCounts(s')) ==
           Total(config.order, CompletionCounts(s)) - s.workers[w].jobsCompleted + worker.jobsCompleted
      && Total(s.submitted, RetryCounts(s')) == Total(s.submitted, RetryCounts(s)) - s.tasks[t].retries + v.retries
  {
    var s' := SetWorker(SetTask(s, t, v), w, worker);
    TotalUpdate(config.order, FailureCounts(s), w, worker.jobsFailed);
    TotalUpdate(config.order, CompletionCounts(s), w, worker.jobsCompleted);
    TotalUpdate(s.submitted, RetryCounts(s), t, v.retries);
    assert FailureCounts(s') == FailureCounts(s)[w := worker.jobsFailed];
    assert CompletionCounts(s') == CompletionCounts(s)[w := worker.jobsCompleted];
    assert RetryCounts(s') == RetryCounts(s)[t := v.retries];
  }

  lemma SameCounts(s: State, s': State)
    requires s.workers == s'.workers && s.tasks == s'.tasks
    ensures FailureCounts(s) == FailureCounts(s') && CompletionCounts(s) == CompletionCounts(s')
    ensures RetryCounts(s) == RetryCounts(s')
  {
  }

  lemma AssignedFacts(config: Config, s: State, t: TaskId)
    requires Placed(config, s, {}) && t in s.tasks && s.tasks[t].status == Assigned
    ensures s.tasks[t].worker.Some? && s.tasks[t].worker.value in s.workers && s.tasks[t].worker.value in config.order
    ensures Runs(s, t, s.tasks[t].worker.value)
    ensures t in s.tracked && t in s.submitted && s.tasks[t].retries < MAX_RETRIES && Closed(s.(recovery := []))
    ensures NoDup(config.order) && NoDup(s.submitted)
  {
    assert t in Elems(s.submitted);
    assert TaskPlaced(s, {}, t);
    assert s.tasks[t].worker.value in Elems(config.order);
    PlacedIsClosed(config, s, {});
  }

  // Ending an assignment: the task leaves its worker with a final status and is filed.
  lemma EndKeepsPlaced(config: Config, s: State, t: TaskId, w: WorkerId, v: Task, worker: Worker)
    requires Placed(config, s, {}) && Runs(s, t, w)
    requires v.status in {Completed, TaskStatus.Failed} && v.retries <= MAX_RETRIES
    requires v.status == TaskStatus.Failed <==> v.retries == MAX_RETRIES
    requires worker.state != Busy
    ensures Placed(config, File(SetWorker(SetTask(s, t, v), w, worker), t), {})
  {
    TakeKeeps(config, s, t, w, v, worker);
    FileKeeps(config, SetWorker(SetTask(s, t, v), w, worker), t);
  }

  lemma EndKeepsCounted(config: Config, s: State, t: TaskId, w: WorkerId, v: Task, worker: Worker)
    requires NoDup(config.order) && w in config.order && NoDup(s.submitted) && t in s.submitted
    requires Counted(config, s) && t in s.tasks && w in s.workers
    requires v.status in {Completed, TaskStatus.Failed}
    requires worker.jobsFailed - s.workers[w].jobsFailed == v.retries - s.tasks[t].retries
    requires worker.jobsCompleted - s.workers[w].jobsCompleted == if v.status == Completed then 1 else 0
    ensures Counted(config, File(SetWorker(SetTask(s, t, v), w, worker), t))
  {
    TotalsAfter(config, s, t, v, w, worker);
    var s1 := SetWorker(SetTask(s, t, v), w, worker);
    SameCounts(s1, File(s1, t));
  }

  // On a registered worker, the steps that end or release an assignment update one task and its worker.
  lemma OneWorkerUpdate(s: State, t: TaskId, w: WorkerId)
    requires t in s.tasks && s.tasks[t].worker == Some(w) && w in s.workers
    ensures var worker := s.workers[w].Freed();
      && Finished(s, t) == File(SetWorker(SetTask(s, t, s.tasks[t].(status := Completed)), w,
                                          worker.(jobsCompleted := worker.jobsCompleted + 1)), t)
      && GivenUp(s, t, Charged(s, t)) ==
           File(SetWorker(SetTask(s, t, Charged(s, t).(status := TaskStatus.Failed)), w,
                          worker.(jobsFailed := worker.jobsFailed + 1)), t)
      && Released(s, t, Charged(s, t)) ==
           SetWorker(SetTask(s, t, Charged(s, t).(status := Retrying)), w, worker.(jobsFailed := worker.jobsFailed + 1))
  {
  }

  lemma FinishedKeeps(config: Config, s: State, t: TaskId)
    requires Placed(config, s, {}) && Counted(config, s) && t in s.tasks && s.tasks[t].status == Assigned
    ensures Placed(config, Finished(s, t), {}) && Counted(config, Finished(s, t))
  {
    hide Placed, Counted;
    AssignedFacts(config, s, t);
    var w := s.tasks[t].worker.value;
    var v := s.tasks[t].(status := Completed);
    var worker := s.workers[w].Freed().(jobsCompleted := s.workers[w].jobsCompleted + 1);
    EndKeepsPlaced(config, s, t, w, v, worker);
    EndKeepsCounted(config, s, t, w, v, worker);
    OneWorkerUpdate(s, t, w);
  }

  lemma CompleteKeeps(config: Config, s: State, t: TaskId)
    requires Inv(config, s) && t in s.tasks && s.tasks[t].status == Assigned
    ensures Closed(s) && Inv(config, Complete(config, s, t))
  {
    AssignedFacts(config, s, t);
    FinishedKeeps(config, s, t);
    DrainKeepsInv(config, Finished(s, t));
  }

  lemma GivenUpKeeps(config: Config, s: State, t: TaskId)
    requires Placed(config, s, {}) && Counted(config, s) && t in s.tasks && s.tasks[t].status == Assigned
    requires s.tasks[t].retries + 1 == MAX_RETRIES
    ensures Placed(config, GivenUp(s, t, Charged(s, t)), {}) && Counted(config, GivenUp(s, t, Charged(s, t)))
  {
    hide Placed, Counted;
    AssignedFacts(config, s, t);
    var w := s.tasks[t].worker.value;
    var v := Charged(s, t).(status := TaskStatus.Failed);
    var worker := s.workers[w].Freed().(jobsFailed := s.workers[w].jobsFailed + 1);
    EndKeepsPlaced(config, s, t, w, v, worker);
    EndKeepsCounted(config, s, t, w, v, worker);
    OneWorkerUpdate(s, t, w);
  }

  lemma ReleasedKeeps(config: Config, s: State, t: TaskId)
    requires Placed(config, s, {}) && Counted(config, s) && t in s.tasks && s.tasks[t].status == Assigned
    requires s.tasks[t].retries + 1 < MAX_RETRIES
    ensures var s1 := Released(s, t, Charged(s, t));
      && Placed(config, s1, {t}) && Counted(config, s1) && s1.tasks[t].retries < MAX_RETRIES
      && exists w :: w in config.order && w in s1.workers && s1.workers[w].state == Idle
  {
    hide Placed, Counted, Total;
    AssignedFacts(config, s, t);
    var w := s.tasks[t].worker.value;
    var v := Charged(s, t).(status := Retrying);
    var worker := s.workers[w].Freed().(jobsFailed := s.workers[w].jobsFailed + 1);
    var s1 := SetWorker(SetTask(s, t, v), w, worker);
    OneWorkerUpdate(s, t, w);
    assert s1 == Released(s, t, Charged(s, t));
    hide Released;
    TakeKeeps(config, s, t, w, v, worker);
    ReleaseKeepsCounted(config, s, t, v, w, worker);
    assert w in config.order && s1.workers[w].state == Idle;
  }

  lemma ReleaseKeepsCounted(config: Config, s: State, t: TaskId, v: Task, w: WorkerId, worker: Worker)
    requires NoDup(config.order) && w in config.order && NoDup(s.submitted) && t in s.submitted
    requires t in s.tasks && w in s.workers && Counted(config, s)
    requires v.retries == s.tasks[t].retries + 1
    requires worker.jobsFailed == s.workers[w].jobsFailed + 1 && worker.jobsCompleted == s.workers[w].jobsCompleted
    ensures Counted(config, SetWorker(SetTask(s, t, v), w, worker))
  {
    TotalsAfter(config, s, t, v, w, worker);
  }

  // With retries left, the worker just freed is idle, so some worker is selected: the branch of
  // Fail that queues the task and then fails it for good is never taken.
  lemma RetryReassigns(config: Config, s: State, t: TaskId)
    requires Inv(config, s) && t in s.tasks && s.tasks[t].status == Assigned
    requires s.tasks[t].retries + 1 < MAX_RETRIES
    ensures Closed(s) && t in s.tracked
    ensures var s1 := Released(s, t, Charged(s, t));
      var chosen := Select(config, s1.workers, s.tasks[t].required);
      chosen.Some? && Fail(config, s, t) == Assign(s1, t, chosen.value)
  {
    AssignedFacts(config, s, t);
    ReleasedKeeps(config, s, t);
    FailUnfolds(config, s, t);
  }

  lemma ReleasedBusy(config: Config, s: State, t: TaskId, chosen: WorkerId)
    requires Placed(config, s, {}) && (s.pending != [] ==> NoIdle(s))
    requires t in s.tasks && s.tasks[t].status == Assigned
    requires var s1 := Released(s, t, Charged(s, t)); chosen in s1.workers && s1.workers[chosen].state == Idle
    ensures var s' := Assign(Released(s, t, Charged(s, t)), t, chosen); s'.pending != [] ==> NoIdle(s')
  {
    AssignedFacts(config, s, t);
  }

  lemma FailKeeps(config: Config, s: State, t: TaskId)
    requires Inv(config, s) && t in s.tasks && s.tasks[t].status == Assigned
    ensures Closed(s) && Inv(config, Fail(config, s, t))
  {
    AssignedFacts(config, s, t);
    if s.tasks[t].retries + 1 < MAX_RETRIES {
      RetryReassigns(config, s, t);
      ReleasedKeeps(config, s, t);
      var s1 := Released(s, t, Charged(s, t));
      var chosen := Select(config, s1.workers, s.tasks[t].required).value;
      AssignKeeps(config, s1, t, chosen);
      AssignLeaves(s1, t, chosen);
      ReleasedBusy(config, s, t, chosen);
    } else {
      GivenUpKeeps(config, s, t);
      DrainKeepsInv(config, GivenUp(s, t, Charged(s, t)));
    }
  }

  lemma NewTaskPlaced(config: Config, s: State, t: TaskId, required: seq<string>)
    requires Placed(config, s, {}) && t !in s.tasks
    ensures Placed(config, WithNewTask(s, t, required), {t})
  {
    var s' := WithNewTask(s, t, required);
    NewTaskListed(config, s, t, required);
    forall u | u in s'.tasks ensures TaskPlaced(s', {t}, u) {
      if u != t { assert TaskPlaced(s, {}, u); } else { NewTaskInHand(config, s, t, required); }
    }
    hide TaskPlaced, Listed, Matched;
    SameMatches(s, s');
  }

  lemma NewTaskListed(config: Config, s: State, t: TaskId, required: seq<string>)
    requires Listed(config, s, {}) && t !in s.tasks
    ensures Listed(config, WithNewTask(s, t, required), {t})
  {
    assert t !in Elems(s.submitted);
    NoDupAppend(s.submitted, t);
  }

  lemma NewTaskInHand(config: Config, s: State, t: TaskId, required: seq<string>)
    requires Listed(config, s, {}) && t !in s.tasks
    ensures TaskPlaced(WithNewTask(s, t, required), {t}, t)
  {
    assert t !in Elems(s.pending) + Elems(s.completed) + Elems(s.failed);
  }

  lemma NewTaskCounted(config: Config, s: State, t: TaskId, required: seq<string>)
    requires NoDup(s.submitted) && t !in s.submitted && Counted(config, s)
    ensures Counted(config, WithNewTask(s, t, required))
  {
    var s' := WithNewTask(s, t, required);
    TotalUpdate(s.submitted, RetryCounts(s), t, 0);
    assert s'.submitted[..|s.submitted|] == s.submitted;
    assert RetryCounts(s') == RetryCounts(s)[t := 0];
    assert FailureCounts(s') == FailureCounts(s) && CompletionCounts(s') == CompletionCounts(s);
  }

  lemma NoneIdle(config: Config, s: State, required: seq<string>)
    requires Elems(config.order) == s.workers.Keys
    ensures Select(config, s.workers, required).None? <==> NoIdle(s)
  {
    forall w ensures w in config.order <==> w in s.workers { assert w in Elems(config.order) <==> w in config.order; }
  }

  // Settling the task in hand restores the invariant.
  lemma SettleKeeps(config: Config, s: State, t: TaskId, choice: Option<WorkerId>)
    requires Placed(config, s, {t}) && Counted(config, s) && s.recovery == []
    requires s.tasks[t].retries < MAX_RETRIES && s.tasks[t].status in {Pending, Orphaned}
    requires s.pending != [] ==> NoIdle(s)
    requires choice.None? ==> NoIdle(s)
    requires choice.Some? ==> choice.value in s.workers && s.workers[choice.value].state == Idle
    ensures Inv(config, Settle(s, t, choice))
  {
    assert t in s.tasks;
    hide Placed, Total;
    match choice
    case Some(w) =>
      AssignKeeps(config, s, t, w);
      AssignLeaves(s, t, w);
    case None =>
      FileKeeps(config, s, t);
      SameCounts(s, File(s, t));
  }

  lemma SubmitKeeps(config: Config, s: State, t: TaskId, required: seq<string>)
    requires Inv(config, s) && t !in s.tasks
    ensures Inv(config, Submit(config, s, t, required))
  {
    assert t !in Elems(s.submitted);
    NewTaskPlaced(config, s, t, required);
    NewTaskCounted(config, s, t, required);
    NoneIdle(config, s, required);
    SettleKeeps(config, WithNewTask(s, t, required), t, Select(config, s.workers, required));
  }

  // ---------- A worker dies ----------

  lemma AffectedIs(config: Config, s: State, w: WorkerId)
    requires Placed(config, s, {}) && w in s.workers
    ensures forall t :: Runs(s, t, w) ==> Affected(s, s.tracked, w) == [t]
    ensures s.workers[w].state != Busy ==> Affected(s, s.tracked, w) == []
  {
    hide Placed, Affected;
    var affected := Affected(s, s.tracked, w);
    AffectedRuns(config, s, w);
    forall t | Runs(s, t, w) ensures affected == [t] { OnlyElement(affected, t); }
    if affected != [] { assert affected[0] in affected; }
  }

  lemma AffectedRuns(config: Config, s: State, w: WorkerId)
    requires Placed(config, s, {}) && w in s.workers
    ensures NoDup(Affected(s, s.tracked, w))
    ensures forall u :: u in Affected(s, s.tracked, w) ==> Runs(s, u, w) && s.workers[w].state == Busy
    ensures forall t, u :: Runs(s, t, w) && u in Affected(s, s.tracked, w) ==> u == t
    ensures forall t :: Runs(s, t, w) ==> t in Affected(s, s.tracked, w)
  {
    forall u | u in s.tasks ensures Runs(s, u, w) ==> s.workers[w].state == Busy && u in s.tracked {
      assert TaskPlaced(s, {}, u);
    }
    forall u | u in Affected(s, s.tracked, w) ensures Runs(s, u, w) { assert TaskPlaced(s, {}, u); }
  }

  // A worker that was running nothing dies.
  lemma SpareDiesPlaced(config: Config, s: State, w: WorkerId, worker: Worker)
    requires Placed(config, s, {}) && w in s.workers && s.workers[w].state != Busy
    requires worker == s.workers[w].(state := WorkerState.Failed)
    ensures Placed(config, SetWorker(s, w, worker), {})
  {
    var s' := SetWorker(s, w, worker);
    forall u | u in s'.tasks ensures TaskPlaced(s', {}, u) { assert TaskPlaced(s, {}, u); }
    forall u, x ensures Runs(s', u, x) <==> Runs(s, u, x) {}
    forall x | x in s'.workers && s'.workers[x].state == Busy ensures Manned(s', x) {
      assert Manned(s, x);
      var u :| Runs(s, u, x);
      assert Runs(s', u, x);
    }
  }

  lemma SpareDies(config: Config, s: State, w: WorkerId, worker: Worker)
    requires Inv(config, s) && w in s.workers && s.workers[w].state != Busy
    requires worker == s.workers[w].(state := WorkerState.Failed)
    ensures Inv(config, SetWorker(s, w, worker))
  {
    SpareDiesPlaced(config, s, w, worker);
    StateOnly(s, w, worker);
  }

  // A change of worker state changes no count.
  lemma StateOnly(s: State, w: WorkerId, worker: Worker)
    requires w in s.workers && worker == s.workers[w].(state := worker.state)
    ensures var s' := SetWorker(s, w, worker);
      && FailureCounts(s') == FailureCounts(s) && CompletionCounts(s') == CompletionCounts(s)
      && RetryCounts(s') == RetryCounts(s)
  {
  }

  // What a worker's death leaves before the orphan is placed again.
  ghost function Orphaning(s: State, t: TaskId, w: WorkerId): State
    requires t in s.tasks && w in s.workers
  {
    SetWorker(SetTask(s, t, s.tasks[t].(status := Orphaned, worker := None)), w,
              s.workers[w].(state := WorkerState.Failed))
  }

  lemma OrphaningKeeps(config: Config, s: State, t: TaskId, w: WorkerId)
    requires Inv(config, s) && Runs(s, t, w)
    ensures w in s.workers
    ensures var s1 := Orphaning(s, t, w);
      && Placed(config, s1, {t}) && Counted(config, s1) && s1.tasks[t].retries < MAX_RETRIES
      && (s1.pending != [] ==> NoIdle(s1))
  {
    hide Placed, Total;
    AssignedFacts(config, s, t);
    var v, worker := s.tasks[t].(status := Orphaned, worker := None), s.workers[w].(state := WorkerState.Failed);
    TakeKeeps(config, s, t, w, v, worker);
    TotalsAfter(config, s, t, v, w, worker);
  }

  ghost function Rehome(config: Config, s: State, t: TaskId): State
    requires t in s.tasks
  {
    Settle(s, t, Select(config, s.workers, s.tasks[t].required))
  }

  // With one worker dead there is at most one orphan, so nothing stays in the recovery queue.
  lemma DeadBusyWorker(config: Config, s: State, t: TaskId, w: WorkerId)
    requires Inv(config, s) && Runs(s, t, w)
    ensures Closed(s) && w in s.workers
    ensures HandleDeadWorker(config, s, w) == Rehome(config, Orphaning(s, t, w), t)
  {
    AssignedFacts(config, s, t);
    AffectedIs(config, s, w);
    OrphansOne(s, t, w);
    RecoverOne(config, Orphaning(s, t, w), t);
  }

  lemma OrphansOne(s: State, t: TaskId, w: WorkerId)
    requires t in s.tasks && w in s.workers && s.recovery == []
    ensures Orphan(SetWorker(s, w, s.workers[w].(state := WorkerState.Failed)), [t]) ==
      Orphaning(s, t, w).(recovery := [t])
  {
  }

  lemma RecoverOne(config: Config, s: State, t: TaskId)
    requires t in s.tasks && s.recovery == []
    ensures Recover(config, s.(recovery := [t])) == Rehome(config, s, t)
  {
    var s0 := s.(recovery := [t]);
    assert s0.(recovery := s0.recovery[1..]) == s;
  }

  lemma HandleDeadWorkerKeeps(config: Config, s: State, w: WorkerId)
    requires Inv(config, s)
    ensures Closed(s) && Inv(config, HandleDeadWorker(config, s, w))
  {
    PlacedIsClosed(config, s, {});
    if w in s.workers {
      if s.workers[w].state == Busy {
        assert Manned(s, w);
        var t :| Runs(s, t, w);
        DeadBusyWorker(config, s, t, w);
        OrphaningKeeps(config, s, t, w);
        var s1 := Orphaning(s, t, w);
        NoneIdle(config, s1, s1.tasks[t].required);
        SettleKeeps(config, s1, t, Select(config, s1.workers, s1.tasks[t].required));
      } else {
        AffectedIs(config, s, w);
        SpareDies(config, s, w, s.workers[w].(state := WorkerState.Failed));
        OrphansNone(SetWorker(s, w, s.workers[w].(state := WorkerState.Failed)));
      }
    }
  }

  // ---------- Exactly when complete and fail keep the invariant ----------

  // Neither method looks at the task's status. On a task that is not running they leave it in two
  // places at once, so they keep the invariant exactly when the task is unknown or running.
  lemma CompleteKeepsIff(config: Config, s: State, t: TaskId)
    requires Inv(config, s)
    ensures Closed(s)
    ensures Inv(config, Complete(config, s, t)) <==> t !in s.tracked || s.tasks[t].status == Assigned
  {
    PlacedIsClosed(config, s, {});
    if t in s.tracked {
      if s.tasks[t].status == Assigned {
        CompleteKeeps(config, s, t);
      } else {
        EndShapes(s, t, s.tasks[t]);
        EndedTwice(config, s, t, Finished(s, t));
      }
    }
  }

  lemma EndShapes(s: State, t: TaskId, v: Task)
    requires t in s.tasks
    ensures var s1 := Finished(s, t);
      s1.tasks.Keys == s.tasks.Keys && s1.pending == s.pending && s1.completed == s.completed + [t] &&
        s1.failed == s.failed
    ensures var s1 := GivenUp(s, t, v);
      s1.tasks.Keys == s.tasks.Keys && s1.pending == s.pending && s1.completed == s.completed &&
        s1.failed == s.failed + [t]
    ensures var s1 := Released(s, t, v);
      && s1.tasks.Keys == s.tasks.Keys && s1.pending == s.pending && s1.completed == s.completed
      && s1.failed == s.failed && s1.tracked == s.tracked
  {
  }

  lemma FailKeepsIff(config: Config, s: State, t: TaskId)
    requires Inv(config, s)
    ensures Closed(s)
    ensures Inv(config, Fail(config, s, t)) <==> t !in s.tracked || s.tasks[t].status == Assigned
  {
    PlacedIsClosed(config, s, {});
    if t in s.tracked {
      if s.tasks[t].status == Assigned {
        FailKeeps(config, s, t);
      } else {
        FailsTwice(config, s, t);
      }
    }
  }

  // A task that is waiting or already ended is listed under its place.
  lemma NotRunningIsListed(config: Config, s: State, t: TaskId)
    requires Placed(config, s, {}) && t in s.tasks && s.tasks[t].status != Assigned
    ensures t in s.pending || t in s.completed || t in s.failed
  {
    assert TaskPlaced(s, {}, t);
  }

  lemma ListedOnce(config: Config, s: State, t: TaskId)
    requires Placed(config, s, {}) && t in s.tasks
    ensures NoDup(s.completed) && NoDup(s.failed)
    ensures t in s.completed || t in s.failed ==> t !in s.pending && s.tasks[t].status != Assigned
    ensures !(t in s.completed && t in s.failed)
  {
    assert TaskPlaced(s, {}, t);
  }

  // If t is put in the list of the completed or the failed a second time, or while it is waiting,
  // draining the queue does not repair it.
  lemma EndedTwice(config: Config, s: State, t: TaskId, s1: State)
    requires Inv(config, s) && t in s.tasks && s.tasks[t].status != Assigned
    requires s1.tasks.Keys == s.tasks.Keys && s.pending <= s1.pending
    requires forall u :: u in s1.pending ==> u in s1.tasks
    requires (s1.completed == s.completed + [t] && s1.failed == s.failed)
          || (s1.completed == s.completed && s1.failed == s.failed + [t])
    ensures !Inv(config, ProcessPending(config, s1))
  {
    hide Placed, NoDup, Counted, NoIdle, ProcessPending;
    var s' := ProcessPending(config, s1);
    NotRunningIsListed(config, s, t);
    ProcessPendingLeaves(config, s1);
    WaitsOrRuns(config, s1, t);
    if t in s.pending {
      assert t in s1.pending;
    } else if t in s.completed && s1.completed == s.completed + [t] {
      NotTwice(s.completed, t);
    } else if t in s.failed && s1.failed == s.failed + [t] {
      NotTwice(s.failed, t);
    }
    if Inv(config, s') { ListedOnce(config, s', t); }
  }

  lemma WaitsOrRuns(config: Config, s: State, t: TaskId)
    requires forall u :: u in s.pending ==> u in s.tasks
    ensures var s' := ProcessPending(config, s);
      && s'.tasks.Keys == s.tasks.Keys
      && (t in s.pending ==> t in s'.pending || (t in s'.tasks && s'.tasks[t].status == Assigned))
  {
    hide ProcessPending, Drained;
    ProcessPendingDrains(config, s);
    if t in s.pending { EitherHalf(s.pending, Drained(config, s), t); }
  }

  lemma EitherHalf(list: seq<TaskId>, k: nat, t: TaskId)
    requires k <= |list| && t in list
    ensures t in list[..k] || t in list[k..]
  {
    assert list == list[..k] + list[k..];
  }

  lemma NotTwice(list: seq<TaskId>, t: TaskId)
    requires t in list
    ensures !NoDup(list + [t])
  {
    assert (list + [t])[..|list|] == list;
  }

  lemma FailsTwice(config: Config, s: State, t: TaskId)
    requires Inv(config, s) && t in s.tracked && t in s.tasks && Closed(s) && s.tasks[t].status != Assigned
    ensures !Inv(config, Fail(config, s, t))
  {
    var v := Charged(s, t);
    EndShapes(s, t, v);
    FailUnfolds(config, s, t);
    if v.retries < MAX_RETRIES {
      var s1 := Released(s, t, v);
      match Select(config, s1.workers, v.required)
      case Some(w) =>
        AssignedButListed(config, s, t, s1, w);
      case None =>
        var s2 := s1.(pending := s1.pending + [t]);
        EndShapes(s2, t, v);
        EndedTwice(config, s, t, GivenUp(s2, t, v));
    } else {
      EndedTwice(config, s, t, GivenUp(s, t, v));
    }
  }

  lemma AssignedButListed(config: Config, s: State, t: TaskId, s1: State, w: WorkerId)
    requires Placed(config, s, {}) && t in s.tasks && s.tasks[t].status != Assigned
    requires t in s1.tasks && w in s1.workers
    requires s1.pending == s.pending && s1.completed == s.completed && s1.failed == s.failed
    ensures !Inv(config, Assign(s1, t, w))
  {
    NotRunningIsListed(config, s, t);
    var s' := Assign(s1, t, w);
    assert s'.tasks[t].status == Assigned;
    assert Inv(config, s') ==> TaskPlaced(s', {}, t);
  }

  // ---------- Whole runs ----------

  datatype Op =
    | Submitting(t: TaskId, required: seq<string>)
    | Completing(t: TaskId)
    | Failing(t: TaskId)
    | Dying(w: WorkerId)

  function Step(config: Config, s: State, op: Op): State
    requires Closed(s)
  {
    match op
    case Submitting(t, required) => Submit(config, s, t, required)
    case Completing(t) => Complete(config, s, t)
    case Failing(t) => Fail(config, s, t)
    case Dying(w) => HandleDeadWorker(config, s, w)
  }

  // Task ids are fresh, and only running tasks are reported completed or failed.
  ghost predicate Allowed(s: State, op: Op) {
    match op
    case Submitting(t, _) => t !in s.tasks
    case Completing(t) => t !in s.tracked || (t in s.tasks && s.tasks[t].status == Assigned)
    case Failing(t) => t !in s.tracked || (t in s.tasks && s.tasks[t].status == Assigned)
    case Dying(_) => true
  }

  ghost predicate LegalRun(config: Config, s: State, ops: seq<Op>)
    decreases |ops|
  {
    ops == [] || (Closed(s) && Allowed(s, ops[0]) && LegalRun(config, Step(config, s, ops[0]), ops[1..]))
  }

  ghost function Run(config: Config, s: State, ops: seq<Op>): State
    requires LegalRun(config, s, ops)
    decreases |ops|
  {
    if ops == [] then s else Run(config, Step(config, s, ops[0]), ops[1..])
  }

  // A fixed registry of idle workers that have not worked yet, and no task.
  ghost predicate Starts(config: Config, s: State) {
    && NoDup(config.order) && Elems(config.order) == s.workers.Keys
    && (forall w :: w in s.workers ==>
          s.workers[w].state == Idle && s.workers[w].jobsCompleted == 0 && s.workers[w].jobsFailed == 0)
    && s == State(s.workers, map[], [], [], [], [], [], [])
  }

  lemma StartKeeps(config: Config, s: State)
    requires Starts(config, s)
    ensures Inv(config, s)
  {
    assert Elems<TaskId>([]) == {};
    TotalZero(config.order, FailureCounts(s));
    TotalZero(config.order, CompletionCounts(s));
  }

  lemma {:induction false} TotalZero<K>(ids: seq<K>, m: map<K, nat>)
    requires forall k :: k in m ==> m[k] == 0
    ensures Total(ids, m) == 0
  {
    if ids != [] { TotalZero(ids[..|ids| - 1], m); }
  }

  lemma StepKeeps(config: Config, s: State, op: Op)
    requires Inv(config, s) && Allowed(s, op)
    ensures Closed(s) && Inv(config, Step(config, s, op))
  {
    PlacedIsClosed(config, s, {});
    match op
    case Submitting(t, required) => SubmitKeeps(config, s, t, required);
    case Completing(t) => CompleteKeepsIff(config, s, t);
    case Failing(t) => FailKeepsIff(config, s, t);
    case Dying(w) => HandleDeadWorkerKeeps(config, s, w);
  }

  // Every state of every legal run keeps the invariant.
  lemma {:induction false} RunKeeps(config: Config, s: State, ops: seq<Op>)
    requires Inv(config, s) && LegalRun(config, s, ops)
    ensures Inv(config, Run(config, s, ops))
    decreases |ops|
  {
    if ops != [] {
      StepKeeps(config, s, ops[0]);
      RunKeeps(config, Step(config, s, ops[0]), ops[1..]);
    }
  }

  // A registry of one worker, and a task submitted to it and completed.
  function OneWorker(w: WorkerId): State {
    State(map[w := Worker(["execute"], Idle, 0, 0)], map[], [], [], [], [], [], [])
  }

  lemma SubmittedThenCompleted(w: WorkerId, t: TaskId) returns (s: State)
    ensures var config, start, ops := Config([w], RoundRobin), OneWorker(w), [Submitting(t, []), Completing(t)];
      && Starts(config, start) && LegalRun(config, start, ops) && s == Run(config, start, ops)
    ensures Inv(Config([w], RoundRobin), s) && t in s.tracked && t in s.tasks && s.tasks[t].status == Completed
  {
    var config, start := Config([w], RoundRobin), OneWorker(w);
    assert [w][..0] == [];
    assert Elems([w]) == {w};
    assert Starts(config, start);
    StartKeeps(config, start);
    var s1 := Step(config, start, Submitting(t, []));
    StepKeeps(config, start, Submitting(t, []));
    assert w in config.order && start.workers[w].state == Idle;
    assert s1.tasks[t].status == Assigned && t in s1.tracked && s1.pending == [];
    s := Step(config, s1, Completing(t));
    StepKeeps(config, s1, Completing(t));
    EndShapes(s1, t, s1.tasks[t]);
    assert s == Finished(s1, t);
    TwoSteps(config, start, Submitting(t, []), Completing(t));
  }

  lemma TwoSteps(config: Config, s: State, a: Op, b: Op)
    requires Closed(s) && Allowed(s, a) && Closed(Step(config, s, a)) && Allowed(Step(config, s, a), b)
    ensures LegalRun(config, s, [a, b]) && Run(config, s, [a, b]) == Step(config, Step(config, s, a), b)
  {
    var s1 := Step(config, s, a);
    assert [a, b][1..] == [b] && [b][1..] == [];
    assert LegalRun(config, Step(config, s1, b), []) && Run(config, Step(config, s1, b), []) == Step(config, s1, b);
    assert LegalRun(config, s1, [b]) && Run(config, s1, [b]) == Step(config, s1, b);
  }

  // Completing that task once more, or failing it then, breaks the invariant.
  lemma ReportedAgainBreaks(w: WorkerId, t: TaskId)
    ensures var config, start, ops := Config([w], RoundRobin), OneWorker(w), [Submitting(t, []), Completing(t)];
      && Starts(config, start) && LegalRun(config, start, ops) && Closed(Run(config, start, ops))
      && !Inv(config, Complete(config, Run(config, start, ops), t))
      && !Inv(config, Fail(config, Run(config, start, ops), t))
  {
    var config := Config([w], RoundRobin);
    var s := SubmittedThenCompleted(w, t);
    CompleteKeepsIff(config, s, t);
    FailKeepsIff(config, s, t);
  }

  // ---------- What the invariant says ----------

  ghost function RunningTasks(s: State): set<TaskId> {
    set t | t in s.tasks && s.tasks[t].status == Assigned
  }

  ghost function BusyWorkers(s: State): set<WorkerId> {
    set w | w in s.workers && s.workers[w].state == Busy
  }

  lemma PlacedOnce(s: State, t: TaskId)
    requires t in s.tasks && TaskPlaced(s, {}, t)
    ensures t in RunningTasks(s) || t in s.pending || t in s.completed || t in s.failed
    ensures t in RunningTasks(s) ==> t !in s.pending && t !in s.completed && t !in s.failed
    ensures !(t in s.pending && t in s.completed) && !(t in s.pending && t in s.failed)
    ensures !(t in s.completed && t in s.failed)
  {
  }

  // No task is lost or duplicated: each submitted task is running or in one of three lists, once,
  // and the numbers add up.
  lemma EachTaskOnce(config: Config, s: State)
    requires Inv(config, s)
    ensures RunningTasks(s) !! Elems(s.pending) !! Elems(s.completed) !! Elems(s.failed)
    ensures RunningTasks(s) + Elems(s.pending) + Elems(s.completed) + Elems(s.failed) == Elems(s.submitted)
    ensures |s.submitted| == |RunningTasks(s)| + |s.pending| + |s.completed| + |s.failed|
  {
    var r, p, c, f := RunningTasks(s), Elems(s.pending), Elems(s.completed), Elems(s.failed);
    hide TaskPlaced, Counted, NoDup;
    forall t | t in s.tasks
      ensures t in r + p + c + f && !(t in p && t in c) && !(t in p && t in f) && !(t in c && t in f)
      ensures t in r ==> t !in p && t !in c && t !in f
    {
      assert TaskPlaced(s, {}, t);
      PlacedOnce(s, t);
    }
    FourParts(r, p, c, f, s.tasks.Keys);
    NoDupCount(s.submitted);
    NoDupCount(s.pending);
    NoDupCount(s.completed);
    NoDupCount(s.failed);
  }

  lemma FourParts<T(!new)>(a: set<T>, b: set<T>, c: set<T>, d: set<T>, all: set<T>)
    requires a + b + c + d <= all
    requires forall x :: x in all ==>
      x in a + b + c + d && !(x in b && x in c) && !(x in b && x in d) && !(x in c && x in d)
    requires forall x :: x in a ==> x !in b && x !in c && x !in d
    ensures a !! b !! c !! d && a + b + c + d == all && |all| == |a| + |b| + |c| + |d|
  {
    assert a !! b && (a + b) !! c && (a + b + c) !! d;
  }

  lemma {:induction false} SameSize<A, B>(a: set<A>, b: set<B>, f: map<A, B>)
    requires a == f.Keys && b == f.Values
    requires forall x, y :: x in f && y in f && f[x] == f[y] ==> x == y
    ensures |a| == |b|
    decreases |a|
  {
    if a != {} {
      var x :| x in a;
      var rest := map k | k in f && k != x :: f[k];
      assert rest.Keys == a - {x};
      assert rest.Values == b - {f[x]} by {
        forall y | y in b - {f[x]} ensures y in rest.Values {
          var k :| k in f && f[k] == y;
          assert k in rest && rest[k] == y;
        }
      }
      SameSize(a - {x}, b - {f[x]}, rest);
    }
  }

  lemma RunningHasWorker(config: Config, s: State, t: TaskId)
    requires Placed(config, s, {}) && t in RunningTasks(s)
    ensures s.tasks[t].worker.Some? && s.tasks[t].worker.value in BusyWorkers(s)
  {
    assert TaskPlaced(s, {}, t);
  }

  lemma BusyHasTask(config: Config, s: State, w: WorkerId) returns (t: TaskId)
    requires Placed(config, s, {}) && w in BusyWorkers(s)
    ensures t in RunningTasks(s) && s.tasks[t].worker == Some(w)
  {
    assert Manned(s, w);
    t :| Runs(s, t, w);
  }

  lemma OneTaskEach(config: Config, s: State, t: TaskId, u: TaskId)
    requires Placed(config, s, {}) && t in RunningTasks(s) && u in RunningTasks(s) &&
      s.tasks[t].worker == s.tasks[u].worker
    ensures t == u
  {
    RunningHasWorker(config, s, t);
    var w := s.tasks[t].worker.value;
    assert Runs(s, t, w) && Runs(s, u, w);
  }

  // Busy workers and running tasks match one to one.
  lemma BusyMatchesRunning(config: Config, s: State)
    requires Inv(config, s)
    ensures forall t :: t in RunningTasks(s) ==> s.tasks[t].worker.Some? && s.tasks[t].worker.value in BusyWorkers(s)
    ensures forall w :: w in BusyWorkers(s) ==> exists t :: t in RunningTasks(s) && s.tasks[t].worker == Some(w)
    ensures forall t, u :: t in RunningTasks(s) && u in RunningTasks(s) && s.tasks[t].worker == s.tasks[u].worker ==>
      t == u
    ensures |BusyWorkers(s)| == |RunningTasks(s)|
  {
    hide Placed, Counted, NoIdle;
    forall t | t in RunningTasks(s)
      ensures s.tasks[t].worker.Some? && s.tasks[t].worker.value in BusyWorkers(s)
    {
      RunningHasWorker(config, s, t);
    }
    var f := map t | t in RunningTasks(s) :: s.tasks[t].worker.value;
    forall w | w in BusyWorkers(s)
      ensures w in f.Values && exists t :: t in RunningTasks(s) && s.tasks[t].worker == Some(w)
    {
      var t := BusyHasTask(config, s, w);
      assert t in f && f[t] == w;
    }
    forall t, u | t in RunningTasks(s) && u in RunningTasks(s) && s.tasks[t].worker == s.tasks[u].worker
      ensures t == u
    {
      OneTaskEach(config, s, t, u);
    }
    SameSize(RunningTasks(s), BusyWorkers(s), f);
  }

  // The workers' counters count the tasks' outcomes, and a task fails for good exactly when it has
  // used up its retries.
  lemma CountersAgree(config: Config, s: State)
    requires Inv(config, s)
    ensures Total(config.order, FailureCounts(s)) == Total(s.submitted, RetryCounts(s))
    ensures Total(config.order, CompletionCounts(s)) == |s.completed|
    ensures forall t :: t in s.tasks ==> s.tasks[t].retries <= 3
    ensures forall t :: t in s.tasks ==> (t in s.failed <==> s.tasks[t].retries == 3)
  {
    forall t | t in s.tasks
      ensures s.tasks[t].retries <= MAX_RETRIES && (t in s.failed <==> s.tasks[t].retries == MAX_RETRIES)
    {
      assert TaskPlaced(s, {}, t);
    }
  }

  // In every state that a legal run reaches from an unused registry: nothing waits for recovery,
  // nothing waits at all while a worker is idle, and every task and worker is accounted for.
  lemma ReachableIsSafe(config: Config, start: State, ops: seq<Op>)
    requires Starts(config, start) && LegalRun(config, start, ops)
    ensures var s := Run(config, start, ops);
      && s.recovery == [] && (s.pending != [] ==> NoIdle(s))
      && Elems(s.submitted) == RunningTasks(s) + Elems(s.pending) + Elems(s.completed) + Elems(s.failed)
      && |s.submitted| == |RunningTasks(s)| + |s.pending| + |s.completed| + |s.failed|
      && |BusyWorkers(s)| == |RunningTasks(s)|
      && Total(config.order, CompletionCounts(s)) == |s.completed|
      && Total(config.order, FailureCounts(s)) == Total(s.submitted, RetryCounts(s))
  {
    StartKeeps(config, start);
    RunKeeps(config, start, ops);
    var s := Run(config, start, ops);
    EachTaskOnce(config, s);
    BusyMatchesRunning(config, s);
    CountersAgree(config, s);
  }

  // ---------- First in, first out ----------

  // The elements of a that are not in b, in order.
  function Minus(a: seq<TaskId>, b: seq<TaskId>): seq<TaskId> {
    if a == [] then []
    else Minus(a[..|a| - 1], b) + if a[|a| - 1] in b then [] else [a[|a| - 1]]
  }

  lemma Associates(a: seq<TaskId>, b: seq<TaskId>, c: seq<TaskId>)
    ensures a + b + c == a + (b + c)
  {
  }

  lemma {:induction false} MinusConcat(a: seq<TaskId>, c: seq<TaskId>, b: seq<TaskId>)
    ensures Minus(a + c, b) == Minus(a, b) + Minus(c, b)
  {
    if c == [] {
      assert a + c == a;
    } else {
      var front := c[..|c| - 1];
      MinusConcat(a, front, b);
      assert (a + c)[..|a + c| - 1] == a + front && (a + c)[|a + c| - 1] == c[|c| - 1];
      hide Minus;
      Associates(Minus(a, b), Minus(front, b), if c[|c| - 1] in b then [] else [c[|c| - 1]]);
    }
  }

  lemma {:induction false} MinusAll(a: seq<TaskId>, b: seq<TaskId>)
    requires forall t :: t in a ==> t in b
    ensures Minus(a, b) == []
  {
    if a != [] { MinusAll(a[..|a| - 1], b); }
  }

  lemma {:induction false} MinusNone(a: seq<TaskId>, b: seq<TaskId>)
    requires forall t :: t in a ==> t !in b
    ensures Minus(a, b) == a
  {
    if a != [] { MinusNone(a[..|a| - 1], b); }
  }

  // A queue that loses its first k elements and gains new ones at the end.
  ghost predicate Advances(before: seq<TaskId>, after: seq<TaskId>) {
    before + Minus(after, before) == Minus(before, after) + after
  }

  lemma MinusSplits(whole: seq<TaskId>, gone: seq<TaskId>, kept: seq<TaskId>, b: seq<TaskId>)
    requires whole == gone + kept || whole == kept + gone
    requires forall t :: t in gone ==> t !in b
    requires forall t :: t in kept ==> t in b
    ensures Minus(whole, b) == gone
  {
    MinusConcat(gone, kept, b);
    MinusConcat(kept, gone, b);
    MinusNone(gone, b);
    MinusAll(kept, b);
    assert gone + [] == gone && [] + gone == gone;
  }

  lemma QueueAdvances(before: seq<TaskId>, k: nat, added: seq<TaskId>)
    requires NoDup(before) && k <= |before| && forall t :: t in added ==> t !in before
    ensures Advances(before, before[k..] + added)
    ensures Minus(before, before[k..] + added) == before[..k] && Minus(before[k..] + added, before) == added
  {
    hide Minus, NoDup;
    var gone, kept := before[..k], before[k..];
    var after := kept + added;
    NoDupSplit(before, k);
    assert before == gone + kept;
    MembersOf(gone, kept, before);
    MembersOf(kept, added, after);
    MinusSplits(before, gone, kept, after);
    MinusSplits(after, added, kept, before);
    assert before + added == gone + after;
  }

  lemma MembersOf(a: seq<TaskId>, b: seq<TaskId>, whole: seq<TaskId>)
    requires whole == a + b
    ensures forall t :: t in whole <==> t in a || t in b
  {
  }

  // ---------- First in, first out, step by step ----------

  // The tasks a step puts into the pending queue, and those it takes out.
  ghost function Entering(config: Config, s: State, op: Op): seq<TaskId>
    requires Closed(s)
  {
    Minus(Step(config, s, op).pending, s.pending)
  }

  ghost function Leaving(config: Config, s: State, op: Op): seq<TaskId>
    requires Closed(s)
  {
    Minus(s.pending, Step(config, s, op).pending)
  }

  // Every step keeps the queue's order, adding at the end and removing at the front; what leaves is running.
  lemma StepIsFifo(config: Config, s: State, op: Op)
    requires Inv(config, s) && Allowed(s, op)
    ensures Closed(s)
    ensures s.pending + Entering(config, s, op) == Leaving(config, s, op) + Step(config, s, op).pending
    ensures forall t :: t in Leaving(config, s, op) ==> t in RunningTasks(Step(config, s, op))
  {
    PlacedIsClosed(config, s, {});
    var k, added := QueueShape(config, s, op);
    QueueAdvances(s.pending, k, added);
    StepKeeps(config, s, op);
  }

  lemma QueueShape(config: Config, s: State, op: Op) returns (k: nat, added: seq<TaskId>)
    requires Inv(config, s) && Allowed(s, op) && Closed(s)
    ensures var s' := Step(config, s, op);
      && k <= |s.pending| && (forall t :: t in added ==> t !in s.pending)
      && s'.pending == s.pending[k..] + added
      && forall t :: t in s.pending[..k] ==> t in s'.tasks && s'.tasks[t].status == Assigned
  {
    hide Placed, Counted, NoIdle, Select, ProcessPending;
    k, added := 0, [];
    match op
    case Submitting(t, required) =>
      if Select(config, s.workers, required).None? {
        added := [t];
        PendingIsKnown(config, s);
      }
    case Completing(t) =>
      if t in s.tracked {
        EndShapes(s, t, s.tasks[t]);
        k := DrainShape(config, s, Finished(s, t));
      }
    case Failing(t) =>
      if t in s.tracked { k := FailShape(config, s, t); }
    case Dying(w) =>
      added := DeadShape(config, s, w);
  }

  lemma DrainShape(config: Config, s: State, s1: State) returns (k: nat)
    requires s1.pending == s.pending && forall t :: t in s1.pending ==> t in s1.tasks
    ensures var s' := ProcessPending(config, s1);
      && k <= |s.pending| && s'.pending == s.pending[k..]
      && forall t :: t in s.pending[..k] ==> t in s'.tasks && s'.tasks[t].status == Assigned
  {
    k := Drained(config, s1);
    ProcessPendingDrains(config, s1);
  }

  lemma FailShape(config: Config, s: State, t: TaskId) returns (k: nat)
    requires Inv(config, s) && Closed(s) && t in s.tasks && s.tasks[t].status == Assigned
    ensures var s' := Fail(config, s, t);
      && k <= |s.pending| && s'.pending == s.pending[k..]
      && forall t :: t in s.pending[..k] ==> t in s'.tasks && s'.tasks[t].status == Assigned
  {
    hide Placed, Counted, NoIdle, Select, ProcessPending;
    AssignedFacts(config, s, t);
    EndShapes(s, t, Charged(s, t));
    if s.tasks[t].retries + 1 < MAX_RETRIES {
      RetryReassigns(config, s, t);
      k := 0;
    } else {
      FailUnfolds(config, s, t);
      k := DrainShape(config, s, GivenUp(s, t, Charged(s, t)));
    }
  }

  lemma PendingIsKnown(config: Config, s: State)
    requires Placed(config, s, {})
    ensures forall t :: t in s.pending ==> t in s.tasks && s.tasks[t].status != Assigned
  {
    forall t | t in s.pending ensures t in s.tasks && s.tasks[t].status != Assigned {
      assert t in Elems(s.pending);
      assert TaskPlaced(s, {}, t);
    }
  }

  lemma DeadShape(config: Config, s: State, w: WorkerId) returns (added: seq<TaskId>)
    requires Inv(config, s) && Closed(s)
    ensures HandleDeadWorker(config, s, w).pending == s.pending + added
    ensures forall t :: t in added ==> t !in s.pending
  {
    added := [];
    if w in s.workers {
      if s.workers[w].state == Busy {
        assert Manned(s, w);
        var t :| Runs(s, t, w);
        DeadBusyWorker(config, s, t, w);
        PendingIsKnown(config, s);
        added := SettleShape(config, Orphaning(s, t, w), t);
      } else {
        DeadSpareShape(config, s, w);
      }
    }
  }

  lemma SettleShape(config: Config, s: State, t: TaskId) returns (added: seq<TaskId>)
    requires t in s.tasks
    ensures Rehome(config, s, t).pending == s.pending + added && (added == [] || added == [t])
  {
    added := if Select(config, s.workers, s.tasks[t].required).None? then [t] else [];
  }

  lemma DeadSpareShape(config: Config, s: State, w: WorkerId)
    requires Inv(config, s) && Closed(s) && w in s.workers && s.workers[w].state != Busy
    ensures HandleDeadWorker(config, s, w).pending == s.pending
  {
    AffectedIs(config, s, w);
    OrphansNone(SetWorker(s, w, s.workers[w].(state := WorkerState.Failed)));
  }

  // Over a run: everything that entered the queue, and everything that left it.
  ghost function Entries(config: Config, s: State, ops: seq<Op>): seq<TaskId>
    requires LegalRun(config, s, ops)
    decreases |ops|
  {
    if ops == [] then []
    else Entering(config, s, ops[0]) + Entries(config, Step(config, s, ops[0]), ops[1..])
  }

  ghost function Exits(config: Config, s: State, ops: seq<Op>): seq<TaskId>
    requires LegalRun(config, s, ops)
    decreases |ops|
  {
    if ops == [] then []
    else Leaving(config, s, ops[0]) + Exits(config, Step(config, s, ops[0]), ops[1..])
  }

  // Over a whole run the tasks leave the pending queue in exactly the order in which they entered it.
  lemma {:induction false} RunIsFifo(config: Config, s: State, ops: seq<Op>)
    requires Inv(config, s) && LegalRun(config, s, ops)
    ensures s.pending + Entries(config, s, ops) == Exits(config, s, ops) + Run(config, s, ops).pending
    decreases |ops|
  {
    if ops != [] {
      var op, rest := ops[0], ops[1..];
      StepIsFifo(config, s, op);
      StepKeeps(config, s, op);
      var s' := Step(config, s, op);
      RunIsFifo(config, s', rest);
      Shift(s.pending, Entering(config, s, op), Entries(config, s', rest),
            Leaving(config, s, op), s'.pending, Exits(config, s', rest), Run(config, s', rest).pending);
    }
  }

  lemma Shift(q: seq<TaskId>, e: seq<TaskId>, es: seq<TaskId>, l: seq<TaskId>, q': seq<TaskId>, ls: seq<TaskId>,
              last: seq<TaskId>)
    requires q + e == l + q' && q' + es == ls + last
    ensures q + (e + es) == (l + ls) + last
  {
    assert q + (e + es) == (q + e) + es;
    assert (l + q') + es == l + (q' + es);
    assert l + (ls + last) == (l + ls) + last;
  }
}
