// core/orchestrator.py: the control loop over planner, critic and coder, which may answer anything
// or raise. Files and transactions are those of Transactions.dfy.

module Orchestrators {
  import opened Basics
  import opened StateMachines
  import opened Transactions

  datatype Reply<+T> = Returns(value: T) | RaisesTransition | Raises {
    function Flow(): Flow {
      match this
      case Returns(_) => Continue
      case RaisesTransition => TransitionError
      case Raises => OtherError
    }
  }

  // A verdict that is not a dictionary raises when it is looked into.
  datatype Verdict = Yes | No | NotADict

  // What the agents answer in one run, call by call, and what the coder does to the files.
  datatype Script = Script(
    plan: nat -> Reply<bool>,
    validate: nat -> Reply<Verdict>,
    code: nat -> Reply<bool>,
    edit: (nat, Files) -> Files,
    check: nat -> Reply<Verdict>,
    fix: nat -> Reply<bool>)

  // The "failed_with_rollback" and the plain "failed" of the trace both return the status "failed".
  datatype Result = Completed | FailedWithRollback | Failed | Errored

  // ---------- What a run comes to, from the answers alone ----------

  function First(a: Flow, b: Flow): Flow {
    if a.Continue? then b else a
  }

  // A rejected plan is made and validated once more; the second verdict is not looked at.
  function PlanningFlow(s: Script): Flow {
    var first := First(s.plan(0).Flow(), s.validate(0).Flow());
    if !first.Continue? then first
    else match s.validate(0).value
      case Yes => Continue
      case NotADict => OtherError
      case No => First(s.plan(1).Flow(), s.validate(1).Flow())
  }

  // One execution and its check.
  function AttemptFlow(s: Script, i: nat): Flow {
    First(s.code(i).Flow(), s.check(i).Flow())
  }

  // From attempt i on, which has been checked, with the given number of retries left.
  function Repair(s: Script, i: nat, left: nat): Result
    requires s.check(i).Returns?
    decreases left
  {
    match s.check(i).value
    case Yes => Completed
    case NotADict => Errored
    case No =>
      if left == 0 then FailedWithRollback
      else match First(s.fix(i).Flow(), AttemptFlow(s, i + 1))
        case TransitionError => FailedWithRollback
        case OtherError => Errored
        case Continue => Repair(s, i + 1, left - 1)
  }

  function Expected(s: Script, maxRetries: int): Result {
    match First(PlanningFlow(s), AttemptFlow(s, 0))
    case TransitionError => Failed
    case OtherError => Errored
    case Continue => Repair(s, 0, AtLeastZero(maxRetries))
  }

  // A run succeeds exactly when, for some number of retries within the bound, every attempt before
  // the last was rejected and repaired and the last one passed.
  ghost predicate PassesAt(s: Script, i: nat, k: nat) {
    (forall j {:trigger Repaired(s, j)} :: i <= j < k ==> Repaired(s, j)) && s.check(k) == Returns(Yes)
  }

  // Attempt j was rejected, and the next one was reached.
  ghost predicate Repaired(s: Script, j: nat) {
    s.check(j) == Returns(No) && s.fix(j).Returns? && s.code(j + 1).Returns?
  }

  lemma {:induction false} RepairCompletesIff(s: Script, i: nat, left: nat)
    requires s.check(i).Returns?
    ensures Repair(s, i, left) == Completed <==> exists k :: i <= k <= i + left && PassesAt(s, i, k)
    decreases left
  {
    if s.check(i).value == Yes { assert PassesAt(s, i, i); }
    var next := First(s.fix(i).Flow(), AttemptFlow(s, i + 1));
    forall k | i < k ensures PassesAt(s, i, k) <==> s.check(i).value == No && next.Continue? && PassesAt(s, i + 1, k) {
      PassesLater(s, i, k);
    }
    if s.check(i).value == No && left > 0 && next.Continue? {
      RepairCompletesIff(s, i + 1, left - 1);
      if Repair(s, i + 1, left - 1) == Completed {
        var j := i + 1;
        var k :| j <= k <= i + left && PassesAt(s, j, k);
        assert PassesAt(s, i, k);
      }
    }
    assert PassesAt(s, i, i) <==> s.check(i).value == Yes;
  }

  lemma PassesLater(s: Script, i: nat, k: nat)
    requires i < k
    ensures PassesAt(s, i, k) <==>
      && s.check(i) == Returns(No) && s.fix(i).Returns? && s.code(i + 1).Returns? && s.check(i + 1).Returns?
      && PassesAt(s, i + 1, k)
  {
    assert Repaired(s, i) <==> s.check(i) == Returns(No) && s.fix(i).Returns? && s.code(i + 1).Returns?;
    assert Repaired(s, i + 1) ==> s.check(i + 1).Returns?;
  }

  // Planning gets as far as the coder.
  ghost predicate ReachesCoder(s: Script) {
    && s.plan(0).Returns? && s.validate(0).Returns?
    && (s.validate(0).value == Yes || (s.validate(0).value == No && s.plan(1).Returns? && s.validate(1).Returns?))
  }

  lemma CompletesIff(s: Script, maxRetries: int)
    ensures Expected(s, maxRetries) == Completed <==>
      && ReachesCoder(s) && s.code(0).Returns? && s.check(0).Returns?
      && exists k :: 0 <= k <= AtLeastZero(maxRetries) && PassesAt(s, 0, k)
  {
    if s.check(0).Returns? { RepairCompletesIff(s, 0, AtLeastZero(maxRetries)); }
  }

  // ---------- How a run ends that does not complete ----------

  // All attempts from i up to k are rejected and repaired.
  ghost predicate RepairedUpTo(s: Script, i: nat, k: nat) {
    forall j {:trigger Repaired(s, j)} :: i <= j < k ==> Repaired(s, j)
  }

  // The repair of attempt k raises an ordinary exception: the fix, the coder, or the check.
  ghost predicate RepairRaises(s: Script, k: nat) {
    s.fix(k).Raises? ||
    (s.fix(k).Returns? && (s.code(k + 1).Raises? || (s.code(k + 1).Returns? && s.check(k + 1).Raises?)))
  }

  // ... or the exception for an illegal transition.
  ghost predicate RepairRaisesTransition(s: Script, k: nat) {
    s.fix(k).RaisesTransition? ||
    (s.fix(k).Returns? &&
     (s.code(k + 1).RaisesTransition? || (s.code(k + 1).Returns? && s.check(k + 1).RaisesTransition?)))
  }

  // The verdict on attempt k is no dictionary, or a retry is left and the repair raises.
  ghost predicate ErrsAt(s: Script, i: nat, k: nat, left: nat) {
    && i <= k <= i + left && RepairedUpTo(s, i, k)
    && (s.check(k) == Returns(NotADict) || (s.check(k) == Returns(No) && k < i + left && RepairRaises(s, k)))
  }

  // Attempt k is rejected with no retry left, or its repair raises the exception for a transition.
  ghost predicate GivesUpAt(s: Script, i: nat, k: nat, left: nat) {
    && i <= k <= i + left && RepairedUpTo(s, i, k) && s.check(k) == Returns(No)
    && (k == i + left || RepairRaisesTransition(s, k))
  }

  lemma LaterAttempt(s: Script, i: nat, k: nat, left: nat)
    requires i < k && left > 0
    ensures ErrsAt(s, i, k, left) <==> Repaired(s, i) && ErrsAt(s, i + 1, k, left - 1)
    ensures GivesUpAt(s, i, k, left) <==> Repaired(s, i) && GivesUpAt(s, i + 1, k, left - 1)
  {
    assert RepairedUpTo(s, i, k) <==> Repaired(s, i) && RepairedUpTo(s, i + 1, k);
  }

  // A later attempt can only be reached when the next one was checked.
  lemma NextWasChecked(s: Script, i: nat, k: nat, left: nat)
    requires i < k && (ErrsAt(s, i, k, left) || GivesUpAt(s, i, k, left))
    ensures left > 0 && Repaired(s, i) && s.check(i + 1).Returns?
  {
    assert Repaired(s, i);
    if i + 1 < k { assert Repaired(s, i + 1); }
  }

  lemma {:induction false} RepairErrsIff(s: Script, i: nat, left: nat)
    requires s.check(i).Returns?
    ensures Repair(s, i, left) == Errored <==> exists k: nat :: ErrsAt(s, i, k, left)
    decreases left
  {
    if s.check(i).value == No && left > 0 && Repaired(s, i) && s.check(i + 1).Returns? {
      RepairErrsIff(s, i + 1, left - 1);
      var next: nat, fewer: nat := i + 1, left - 1;
      if k: nat :| ErrsAt(s, next, k, fewer) {
        LaterAttempt(s, i, k, left);
        assert ErrsAt(s, i, k, left);
      }
    }
    assert ErrsAt(s, i, i, left) ==> exists k: nat :: ErrsAt(s, i, k, left);
    if k: nat :| ErrsAt(s, i, k, left) {
      if k > i {
        NextWasChecked(s, i, k, left);
        LaterAttempt(s, i, k, left);
      }
    }
  }

  lemma {:induction false} RepairGivesUpIff(s: Script, i: nat, left: nat)
    requires s.check(i).Returns?
    ensures Repair(s, i, left) == FailedWithRollback <==> exists k: nat :: GivesUpAt(s, i, k, left)
    decreases left
  {
    if s.check(i).value == No && left > 0 && Repaired(s, i) && s.check(i + 1).Returns? {
      RepairGivesUpIff(s, i + 1, left - 1);
      var next: nat, fewer: nat := i + 1, left - 1;
      if k: nat :| GivesUpAt(s, next, k, fewer) {
        LaterAttempt(s, i, k, left);
        assert GivesUpAt(s, i, k, left);
      }
    }
    assert GivesUpAt(s, i, i, left) ==> exists k: nat :: GivesUpAt(s, i, k, left);
    if k: nat :| GivesUpAt(s, i, k, left) {
      if k > i {
        NextWasChecked(s, i, k, left);
        LaterAttempt(s, i, k, left);
      }
    }
  }

  // Before the first verdict is looked at, the first call that does not return raises an ordinary
  // exception, or the verdict on the plan is no dictionary.
  ghost predicate StartErrs(s: Script) {
    || s.plan(0).Raises?
    || (s.plan(0).Returns? && (s.validate(0).Raises? || s.validate(0) == Returns(NotADict)))
    || (s.plan(0).Returns? && s.validate(0) == Returns(No) &&
        (s.plan(1).Raises? || (s.plan(1).Returns? && s.validate(1).Raises?)))
    || (ReachesCoder(s) && (s.code(0).Raises? || (s.code(0).Returns? && s.check(0).Raises?)))
  }

  // ... or raises the exception for an illegal transition.
  ghost predicate StartRaisesTransition(s: Script) {
    || s.plan(0).RaisesTransition?
    || (s.plan(0).Returns? && s.validate(0).RaisesTransition?)
    || (s.plan(0).Returns? && s.validate(0) == Returns(No) &&
        (s.plan(1).RaisesTransition? || (s.plan(1).Returns? && s.validate(1).RaisesTransition?)))
    || (ReachesCoder(s) && (s.code(0).RaisesTransition? || (s.code(0).Returns? && s.check(0).RaisesTransition?)))
  }

  // The run ends in an error, in a rollback out of the repair loop, or in a plain failure, exactly so.
  lemma ErroredIff(s: Script, maxRetries: int)
    ensures Expected(s, maxRetries) == Errored <==>
      StartErrs(s) || (ReachesCoder(s) && s.code(0).Returns? && s.check(0).Returns? &&
                       exists k: nat :: ErrsAt(s, 0, k, AtLeastZero(maxRetries)))
  {
    if s.check(0).Returns? { RepairErrsIff(s, 0, AtLeastZero(maxRetries)); }
  }

  lemma RolledBackIff(s: Script, maxRetries: int)
    ensures Expected(s, maxRetries) == FailedWithRollback <==>
      && ReachesCoder(s) && s.code(0).Returns? && s.check(0).Returns?
      && exists k: nat :: GivesUpAt(s, 0, k, AtLeastZero(maxRetries))
  {
    if s.check(0).Returns? { RepairGivesUpIff(s, 0, AtLeastZero(maxRetries)); }
  }

  lemma FailedIff(s: Script, maxRetries: int)
    ensures Expected(s, maxRetries) == Failed <==> StartRaisesTransition(s)
  {
    if s.check(0).Returns? { RepairEndsOtherwise(s, 0, AtLeastZero(maxRetries)); }
  }

  lemma {:induction false} RepairEndsOtherwise(s: Script, i: nat, left: nat)
    requires s.check(i).Returns?
    ensures Repair(s, i, left) != Failed
    decreases left
  {
    if s.check(i).value == No && left > 0 && Repaired(s, i) && s.check(i + 1).Returns? {
      RepairEndsOtherwise(s, i + 1, left - 1);
    }
  }

  // So a plan rejected twice is executed, and the run completes as if it had been accepted.
  lemma SecondRejectionIsExecuted(s: Script, maxRetries: int)
    requires s.plan(0).Returns? && s.validate(0) == Returns(No) && s.plan(1).Returns? && s.validate(1) == Returns(No)
    ensures Expected(s, maxRetries) == Completed <==>
      s.code(0).Returns? && s.check(0).Returns? && exists k :: 0 <= k <= AtLeastZero(maxRetries) && PassesAt(s, 0, k)
  {
    CompletesIff(s, maxRetries);
  }

  // The files after the coder's runs from k up to n.
  function EditedFrom(s: Script, files: Files, k: nat, n: nat): Files
    decreases n
  {
    if n <= k then files else s.edit(n - 1, EditedFrom(s, files, k, n - 1))
  }

  // Each run of the coder edits what the one before left.
  lemma {:induction false} EditsInTurn(s: Script, files: Files, n: nat) returns (states: seq<Files>)
    ensures |states| == n + 1 && states[0] == files && states[n] == EditedFrom(s, files, 0, n)
    ensures forall i :: 0 <= i < n ==> states[i + 1] == s.edit(i, states[i])
  {
    if n == 0 {
      states := [files];
    } else {
      var before := EditsInTurn(s, files, n - 1);
      states := before + [s.edit(n - 1, before[n - 1])];
    }
  }

  lemma {:induction false} EditedJoins(s: Script, files: Files, first: Files, n: nat)
    requires first == s.edit(0, files) && n > 0
    ensures EditedFrom(s, first, 1, n) == EditedFrom(s, files, 0, n)
  {
    if n == 1 {
      assert EditedFrom(s, files, 0, 0) == files;
      assert EditedFrom(s, first, 1, 1) == first;
    } else {
      EditedJoins(s, files, first, n - 1);
    }
  }

  // ---------- The orchestrator ----------

  class Orchestrator {
    const sm: StateMachine
    const manager: TransactionManager
    // The calls made in this run.
    var plans: nat
    var codings: nat

    ghost predicate Valid()
      reads this, sm, manager, manager.transactions
    {
      sm.Valid() && manager.Valid()
    }

    constructor (maxRetries: int, fs: FileSystem)
      ensures Valid() && fresh(sm) && fresh(manager) && sm.maxRetries == maxRetries && manager.fs == fs
      ensures plans == codings == 0
    {
      sm := new StateMachine(maxRetries);
      manager := new TransactionManager(fs);
      plans, codings := 0, 0;
    }

    // One call of the planner and one of the critic.
    method MakePlan(s: Script, i: nat) returns (flow: Flow)
      requires sm.Valid() && plans == i && sm.state in {Init, Validate}
      modifies this`plans, sm
      ensures sm.Valid() && plans == i + 1 && sm.patchCount == old(sm.patchCount)
      ensures flow == First(s.plan(i).Flow(), s.validate(i).Flow())
      ensures flow.Continue? ==> sm.state == Validate
      ensures sm.state != Done && Entries(sm.history, Plan) == Entries(old(sm.history), Plan) + 1
      ensures Entries(sm.history, Execute) == Entries(old(sm.history), Execute)
    {
      flow := sm.Transition(Plan);
      :- flow;
      plans := plans + 1;
      :- s.plan(i).Flow();
      :- sm.Transition(Validate);
      return s.validate(i).Flow();
    }

    // INIT -> PLAN -> VALIDATE, and once more if the plan is rejected.
    method Prepare(s: Script) returns (flow: Flow)
      requires sm.Valid() && plans == 0 && sm.state == Init && sm.history == [] && sm.patchCount == 0
      modifies this`plans, sm
      ensures sm.Valid() && flow == PlanningFlow(s) && sm.patchCount == 0 && sm.state != Done
      ensures flow.Continue? ==> sm.state == Validate
      ensures plans == Entries(sm.history, Plan) && 1 <= plans <= 2 && Entries(sm.history, Execute) == 0
    {
      flow := MakePlan(s, 0);
      :- flow;
      match s.validate(0).value
      case Yes => return Continue;
      case NotADict => return OtherError;
      case No =>
        flow := MakePlan(s, 1);
    }

    // -> EXECUTE -> VERIFY: one run of the coder and one check.
    method Attempt(s: Script, i: nat) returns (flow: Flow)
      requires sm.Valid() && sm.state in {Validate, Patch} && codings == i
      modifies this`codings, sm, manager.fs`files
      ensures sm.Valid() && flow == AttemptFlow(s, i) && sm.patchCount == old(sm.patchCount) && sm.state != Done
      ensures flow.Continue? ==> sm.state == Verify
      ensures codings == i + 1 && manager.fs.files == s.edit(i, old(manager.fs.files))
      ensures Entries(sm.history, Execute) == Entries(old(sm.history), Execute) + 1
      ensures Entries(sm.history, Plan) == Entries(old(sm.history), Plan)
    {
      flow := sm.Transition(Execute);
      :- flow;
      codings := codings + 1;
      manager.fs.files := s.edit(i, manager.fs.files);
      :- s.code(i).Flow();
      :- sm.Transition(Verify);
      return s.check(i).Flow();
    }

    // VERIFY -> PATCH -> EXECUTE -> VERIFY: a fix is suggested and attempted.
    method Patched(s: Script, i: nat) returns (flow: Flow)
      requires sm.Valid() && sm.state == Verify && sm.patchCount == i <= AtLeastZero(sm.maxRetries) && codings == i + 1
      modifies this`codings, sm, manager.fs`files
      ensures sm.Valid() && sm.state != Done && codings == Entries(sm.history, Execute)
      ensures flow == if i >= sm.maxRetries then TransitionError else First(s.fix(i).Flow(), AttemptFlow(s, i + 1))
      ensures flow.Continue? ==> sm.state == Verify && sm.patchCount == i + 1 && codings == i + 2
      ensures i + 1 <= codings <= i + 2 && (i >= sm.maxRetries ==> codings == i + 1)
      ensures manager.fs.files ==
        if codings == i + 1 then old(manager.fs.files) else s.edit(i + 1, old(manager.fs.files))
      ensures Entries(sm.history, Plan) == Entries(old(sm.history), Plan)
    {
      ExecutionsAndPatches(sm.history, sm.state);
      :- sm.Transition(Patch);
      :- s.fix(i).Flow();
      flow := Attempt(s, i + 1);
    }

    // The loop over patches, after the first execution has been checked.
    method RepairLoop(s: Script) returns (result: Result)
      requires sm.Valid() && sm.state == Verify && sm.patchCount == 0 && codings == 1 && s.check(0).Returns?
      modifies this`codings, sm, manager.fs`files
      ensures sm.Valid() && result == Repair(s, 0, AtLeastZero(sm.maxRetries))
      ensures if result == Completed then sm.state == Verify else sm.state != Done
      ensures codings == Entries(sm.history, Execute) && 1 <= codings <= AtLeastZero(sm.maxRetries) + 1
      ensures Entries(sm.history, Plan) == Entries(old(sm.history), Plan)
      ensures manager.fs.files == EditedFrom(s, old(manager.fs.files), 1, codings)
    {
      var i := 0;
      ghost var bound := AtLeastZero(sm.maxRetries);
      while s.check(i).value == No
        invariant i <= bound && sm.Valid() && sm.state == Verify && sm.patchCount == i && codings == i + 1
        invariant s.check(i).Returns? && Repair(s, i, bound - i) == Repair(s, 0, bound)
        invariant Entries(sm.history, Plan) == Entries(old(sm.history), Plan)
        invariant manager.fs.files == EditedFrom(s, old(manager.fs.files), 1, codings)
        decreases bound - i
      {
        var flow := Patched(s, i);
        match flow {
          case TransitionError => return FailedWithRollback;
          case OtherError => return Errored;
          case Continue => i := i + 1;
        }
      }
      ExecutionsAndPatches(sm.history, sm.state);
      return if s.check(i).value == Yes then Completed else Errored;
    }

    // The try block, up to but not including the handling of what it raises.
    method Attempts(s: Script) returns (result: Result)
      requires sm.Valid() && plans == codings == 0 && sm.state == Init && sm.history == [] && sm.patchCount == 0
      modifies this`plans, this`codings, sm, manager.fs`files
      ensures sm.Valid() && result == Expected(s, sm.maxRetries)
      ensures if result == Completed then sm.state == Verify else sm.state != Done
      ensures plans == Entries(sm.history, Plan) <= 2 &&
        codings == Entries(sm.history, Execute) <= AtLeastZero(sm.maxRetries) + 1
      ensures manager.fs.files == EditedFrom(s, old(manager.fs.files), 0, codings)
    {
      hide Repair;
      var flow := Prepare(s);
      if flow.Continue? { flow := Attempt(s, 0); }
      match flow {
        case TransitionError => return Failed;
        case OtherError => return Errored;
        case Continue =>
      }
      ghost var first := manager.fs.files;
      result := RepairLoop(s);
      EditedJoins(s, old(manager.fs.files), first, codings);
    }

    // The result follows from the answers alone: the state machine never refuses a step but the
    // last patch. A completed run has committed its transaction and is done; any other has rolled it
    // back. The history is a legal path with at most maxRetries patches, one plan call per entry of
    // PLAN, at most two, and one coder call per entry of EXECUTE, at most maxRetries + 1. No file is
    // snapshotted in the orchestrator's own transaction, so what the coder did stays either way.
    method Run(s: Script) returns (result: Result, tx: Transaction)
      requires Valid()
      modifies this`plans, this`codings, sm, manager`transactions, manager`active, manager`counter, manager.fs`files
      ensures Valid() && fresh(tx) && manager.transactions == old(manager.transactions) + [tx]
      ensures result == Expected(s, sm.maxRetries)
      ensures result == Completed <==> tx.committed && sm.state == Done
      ensures result != Completed <==> tx.rolledBack
      ensures tx.committed <==> !tx.rolledBack
      ensures LegalPath(sm.history, sm.state) && Entries(sm.history, Patch) <= AtLeastZero(sm.maxRetries)
      ensures plans == Entries(sm.history, Plan) <= 2
      ensures codings == Entries(sm.history, Execute) <= AtLeastZero(sm.maxRetries) + 1
      ensures manager.fs.files == EditedFrom(s, old(manager.fs.files), 0, codings)
    {
      sm.Reset();
      plans, codings := 0, 0;
      tx := manager.Begin();
      hide Expected, Repair, EditedFrom;
      result := Attempts(s);
      Settle(result, tx);
    }

    // A completed run is committed, any other rolled back.
    method Settle(result: Result, tx: Transaction)
      requires Valid() && manager.active == tx && tx.snapshots == [] && !tx.committed && !tx.rolledBack
      requires if result == Completed then sm.state == Verify else sm.state != Done
      modifies sm, manager`active, manager.fs`files, tx
      ensures Valid() && tx.committed == (result == Completed) == !tx.rolledBack
      ensures (sm.state == Done) == (result == Completed)
      ensures forall x :: x != Done ==> Entries(sm.history, x) == Entries(old(sm.history), x)
      ensures manager.transactions == old(manager.transactions) && manager.fs.files == old(manager.fs.files)
    {
      if result == Completed {
        tx.Commit();
        var _ := sm.Transition(Done);
      } else {
        var _ := manager.RollbackActive();
      }
    }
  }
}
