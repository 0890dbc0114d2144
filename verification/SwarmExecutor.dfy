// core/swarm_coordinator.py: the round-based executor of a delegation graph.

module SwarmExecutor {
  import opened DelegationGraphs
  import opened Sequences

  const MAX_ITERATIONS := 50

  ghost function StatesWith(deps: Deps, completed: set<NodeId>, others: NodeState): map<NodeId, NodeState> {
    map n | n in deps :: if n in completed then Completed else others
  }

  // Node states after k full rounds that started from all nodes PENDING.
  ghost function AfterRounds(deps: Deps, k: nat): map<NodeId, NodeState> {
    StatesWith(deps, Done(deps, k), Pending)
  }

  // The order in which k rounds complete nodes: round by round, each round in insertion order.
  ghost function CompletionOrder(deps: Deps, order: seq<NodeId>, k: nat): seq<NodeId> {
    if k == 0 then []
    else CompletionOrder(deps, order, k - 1) + ReadyAmong(deps, AfterRounds(deps, k - 1), order)
  }

  // What an executor capped at max rounds leaves behind. Nodes are marked FAILED only when a round
  // finds nothing to do, and there is no round after the last to find that.
  ghost function FinalStates(deps: Deps, max: nat): map<NodeId, NodeState>
    requires max > 0
  {
    StatesWith(deps, Done(deps, max), if Done(deps, max - 1) == Done(deps, max) then Failed else Pending)
  }

  // In a state in which exactly done is completed, the nodes ready are the rest of the next level.
  lemma ReadyIsNextLevel(deps: Deps, order: seq<NodeId>, done: set<NodeId>)
    requires (forall n :: n in order <==> n in deps) && done <= NextLevel(deps, done)
    ensures var ready := ReadyAmong(deps, StatesWith(deps, done, Pending), order);
      && Elems(ready) == NextLevel(deps, done) - done
      && (ready == [] <==> done == NextLevel(deps, done))
  {
    var states := StatesWith(deps, done, Pending);
    var ready := ReadyAmong(deps, states, order);
    forall n ensures n in ready <==> n in NextLevel(deps, done) && n !in done {
      if n in deps {
        assert Satisfied(states, deps[n]) <==> n in NextLevel(deps, done);
      }
    }
    if ready != [] { assert ready[0] in ready; }
  }

  lemma RoundAdvances(deps: Deps, order: seq<NodeId>, done: set<NodeId>)
    requires (forall n :: n in order <==> n in deps) && done <= NextLevel(deps, done)
    ensures var ready := ReadyAmong(deps, StatesWith(deps, done, Pending), order);
      Marked(StatesWith(deps, done, Pending), ready, Completed) == StatesWith(deps, NextLevel(deps, done), Pending)
  {
    ReadyIsNextLevel(deps, order, done);
    assert forall n :: n in ReadyAmong(deps, StatesWith(deps, done, Pending), order) <==>
      n in NextLevel(deps, done) - done;
  }

  // Set each listed node to RUNNING.
  method Dispatch(dag: DelegationGraph, ready: seq<NodeId>)
    requires dag.Valid() && forall n :: n in ready ==> n in dag.nodes
    modifies dag.nodes.Values
    ensures dag.Valid() && dag.States() == Marked(old(dag.States()), ready, Running)
  {
    for i := 0 to |ready|
      invariant dag.Valid() && dag.States() == Marked(old(dag.States()), ready[..i], Running)
    {
      assert ready[..i + 1] == ready[..i] + [ready[i]];
      dag.SetState(ready[i], Running);
    }
    assert ready[..|ready|] == ready;
  }

  ghost function RunningAmong(states: map<NodeId, NodeState>, s: seq<NodeId>): (r: seq<NodeId>)
    ensures forall n :: n in r <==> n in s && n in states && states[n] == Running
  {
    if s == [] then []
    else
      var front, n := RunningAmong(states, s[..|s| - 1]), s[|s| - 1];
      if n in states && states[n] == Running then front + [n] else front
  }

  // Complete every RUNNING node in insertion order.
  method CompleteRunning(dag: DelegationGraph) returns (completed: seq<NodeId>)
    requires dag.Valid()
    modifies dag.nodes.Values
    ensures dag.Valid() && completed == RunningAmong(old(dag.States()), dag.order)
    ensures dag.States() == Marked(old(dag.States()), completed, Completed)
  {
    ghost var before := dag.States();
    completed := [];
    assert RunningAmong(before, dag.order[..0]) == [];
    assert Marked(before, [], Completed) == before;
    hide RunningAmong, Marked, NoDup;
    for i := 0 to |dag.order|
      invariant dag.Valid() && completed == RunningAmong(before, dag.order[..i])
      invariant dag.States() == Marked(before, completed, Completed)
    {
      completed := CompleteIfRunning(dag, i, before, completed);
    }
    assert dag.order[..|dag.order|] == dag.order;
  }

  lemma RunningNext(states: map<NodeId, NodeState>, s: seq<NodeId>, i: nat)
    requires NoDup(s) && i < |s|
    ensures var front := RunningAmong(states, s[..i]);
      && s[i] !in front
      && RunningAmong(states, s[..i + 1]) == if s[i] in states && states[s[i]] == Running then front + [s[i]] else front
  {
    NoDupAt(s, i);
    assert s[..i + 1][..i] == s[..i];
  }

  method CompleteIfRunning(dag: DelegationGraph, i: nat, ghost before: map<NodeId, NodeState>, completed: seq<NodeId>)
    returns (more: seq<NodeId>)
    requires dag.Valid() && i < |dag.order| && completed == RunningAmong(before, dag.order[..i])
    requires dag.States() == Marked(before, completed, Completed)
    modifies dag.nodes.Values
    ensures dag.Valid() && more == RunningAmong(before, dag.order[..i + 1])
    ensures dag.States() == Marked(before, more, Completed)
  {
    var n := dag.order[i];
    RunningNext(before, dag.order, i);
    hide RunningAmong, NoDup;
    assert dag.States()[n] == dag.nodes[n].state == before[n];
    more := completed;
    if dag.nodes[n].state == Running {
      dag.SetState(n, Completed);
      more := completed + [n];
    }
  }

  // The nodes of s that are not terminal are FAILED.
  ghost function FailedAmong(states: map<NodeId, NodeState>, s: seq<NodeId>): map<NodeId, NodeState> {
    map n | n in states :: if n in s && !states[n].Terminal() then Failed else states[n]
  }

  // Mark everything that is not terminal FAILED.
  method FailRemaining(dag: DelegationGraph)
    requires dag.Valid()
    modifies dag.nodes.Values
    ensures dag.Valid()
    ensures dag.States() == RestFailed(old(dag.States()))
  {
    ghost var before := dag.States();
    assert FailedAmong(before, dag.order[..0]) == before;
    assert FailedAmong(before, dag.order) == RestFailed(before);
    hide FailedAmong, RestFailed, NoDup;
    for i := 0 to |dag.order|
      invariant dag.Valid() && dag.States() == FailedAmong(before, dag.order[..i])
    {
      FailIfLeft(dag, i, before);
    }
    assert dag.order[..|dag.order|] == dag.order;
  }

  method FailIfLeft(dag: DelegationGraph, i: nat, ghost before: map<NodeId, NodeState>)
    requires dag.Valid() && i < |dag.order| && dag.States() == FailedAmong(before, dag.order[..i])
    modifies dag.nodes.Values
    ensures dag.Valid() && dag.States() == FailedAmong(before, dag.order[..i + 1])
  {
    var n := dag.order[i];
    assert dag.order[..i + 1] == dag.order[..i] + [n];
    assert dag.States()[n] == dag.nodes[n].state;
    if !dag.nodes[n].state.Terminal() { dag.SetState(n, Failed); }
  }

  lemma DispatchedComplete(deps: Deps, states: map<NodeId, NodeState>, s: seq<NodeId>, ready: seq<NodeId>)
    requires forall n :: n in ready ==> n in states
    requires forall n :: n in states ==> states[n] != Running
    requires forall n :: n in s ==> (n in ready <==> ReadyAt(deps, states, n))
    ensures RunningAmong(Marked(Marked(states, ready, Ready), ready, Running), s) == ReadyAmong(deps, states, s)
  {
    if s != [] { DispatchedComplete(deps, states, s[..|s| - 1], ready); }
  }

  // A round with nothing ready changes nothing, nor does any later one.
  lemma {:induction false} StuckStays(deps: Deps, order: seq<NodeId>, k: nat, max: nat)
    requires k <= max && Done(deps, k) == Done(deps, k + 1)
    requires forall n :: n in order <==> n in deps
    ensures Done(deps, max) == Done(deps, k)
    ensures CompletionOrder(deps, order, max) == CompletionOrder(deps, order, k)
    decreases max
  {
    DoneSettles(deps, k, max);
    if k < max {
      StuckStays(deps, order, k, max - 1);
      DoneGrows(deps, k, k + 1);
      ReadyIsNextLevel(deps, order, Done(deps, k));
    }
  }

  ghost predicate AllTerminal(states: map<NodeId, NodeState>) {
    forall n :: n in states ==> states[n].Terminal()
  }

  ghost function RestFailed(states: map<NodeId, NodeState>): map<NodeId, NodeState> {
    map n | n in states :: if states[n].Terminal() then states[n] else Failed
  }

  lemma StatesWithFacts(deps: Deps, completed: set<NodeId>)
    ensures RestFailed(StatesWith(deps, completed, Pending)) == StatesWith(deps, completed, Failed)
    ensures AllTerminal(StatesWith(deps, completed, Pending)) <==> deps.Keys <= completed
    ensures deps.Keys <= completed ==> StatesWith(deps, completed, Pending) == StatesWith(deps, completed, Failed)
  {
    forall n | n in deps ensures StatesWith(deps, completed, Pending)[n].Terminal() <==> n in completed {}
    if !(deps.Keys <= completed) {
      var n :| n in deps.Keys && n !in completed;
      assert !StatesWith(deps, completed, Pending)[n].Terminal();
    }
  }

  lemma SettledFinal(deps: Deps, max: nat)
    requires max > 0 && Done(deps, max - 1) == Done(deps, max)
    ensures FinalStates(deps, max) == StatesWith(deps, Done(deps, max), Failed)
  {
  }

  // If a round adds nothing, everything not completed ends up failed.
  lemma StuckEnds(deps: Deps, order: seq<NodeId>, k: nat, max: nat)
    requires k < max && Done(deps, k) == Done(deps, k + 1)
    requires forall n :: n in order <==> n in deps
    ensures FinalStates(deps, max) == StatesWith(deps, Done(deps, k), Failed)
    ensures CompletionOrder(deps, order, max) == CompletionOrder(deps, order, k)
  {
    DoneSettles(deps, k, max - 1);
    DoneSettles(deps, k, max);
    SettledFinal(deps, max);
    StuckStays(deps, order, k, max);
  }

  // One round that found something to do.
  method CompleteRound(dag: DelegationGraph, ready: seq<NodeId>, ghost done: set<NodeId>)
    returns (completed: seq<NodeId>)
    requires dag.Valid() && done <= NextLevel(dag.Deps(), done)
    requires ready == ReadyAmong(dag.Deps(), StatesWith(dag.Deps(), done, Pending), dag.order)
    requires dag.States() == Marked(StatesWith(dag.Deps(), done, Pending), ready, Ready)
    modifies dag.nodes.Values
    ensures dag.Valid() && completed == ready
    ensures dag.States() == StatesWith(dag.Deps(), NextLevel(dag.Deps(), done), Pending)
  {
    hide NextLevel, NoDup, RunningAmong, ReadyAmong;
    ghost var deps, order, before := dag.Deps(), dag.order, StatesWith(dag.Deps(), done, Pending);
    Dispatch(dag, ready);
    DispatchedComplete(deps, before, order, ready);
    completed := CompleteRunning(dag);
    assert dag.States() == Marked(before, ready, Completed);
    RoundAdvances(deps, order, done);
  }

  // No progress is possible.
  method GiveUp(dag: DelegationGraph, ghost done: set<NodeId>)
    requires dag.Valid()
    requires dag.States() == Marked(StatesWith(dag.Deps(), done, Pending), [], Ready)
    modifies dag.nodes.Values
    ensures dag.Valid() && dag.States() == StatesWith(dag.Deps(), done, Failed)
  {
    assert dag.States() == StatesWith(dag.Deps(), done, Pending);
    StatesWithFacts(dag.Deps(), done);
    FailRemaining(dag);
  }

  method FinishedEarly(dag: DelegationGraph, ghost done: set<NodeId>) returns (complete: bool)
    requires dag.Valid() && dag.States() == StatesWith(dag.Deps(), done, Pending)
    ensures complete <==> dag.Deps().Keys <= done
    ensures complete ==> dag.States() == StatesWith(dag.Deps(), done, Failed)
  {
    complete := dag.IsComplete();
    assert complete <==> AllTerminal(dag.States());
    StatesWithFacts(dag.Deps(), done);
  }

  method FindReady(dag: DelegationGraph, ghost done: set<NodeId>) returns (ready: seq<NodeId>, stuck: bool)
    requires dag.Valid() && dag.States() == StatesWith(dag.Deps(), done, Pending)
    requires done <= NextLevel(dag.Deps(), done)
    modifies dag.nodes.Values
    ensures dag.Valid() && (stuck <==> ready == []) && (stuck <==> done == NextLevel(dag.Deps(), done))
    ensures ready == ReadyAmong(dag.Deps(), StatesWith(dag.Deps(), done, Pending), dag.order)
    ensures dag.States() == Marked(StatesWith(dag.Deps(), done, Pending), ready, Ready)
  {
    ghost var deps, before := dag.Deps(), dag.States();
    ready := dag.ReadyNodes();
    assert dag.Deps() == deps;
    assert ready == ReadyAmong(deps, before, dag.order) && dag.States() == Marked(before, ready, Ready);
    var running := dag.HasRunning();
    ReadyIsNextLevel(deps, dag.order, done);
    stuck := ready == [] && !running;
  }

  // One round; it stops when everything is terminal or nothing can make progress.
  method RunRound(dag: DelegationGraph, ghost done: set<NodeId>) returns (stop: bool, completed: seq<NodeId>)
    requires dag.Valid() && dag.States() == StatesWith(dag.Deps(), done, Pending)
    requires done <= NextLevel(dag.Deps(), done)
    modifies dag.nodes.Values
    ensures dag.Valid() && (stop <==> done == NextLevel(dag.Deps(), done))
    ensures stop ==> dag.States() == StatesWith(dag.Deps(), done, Failed)
    ensures !stop ==> completed == ReadyAmong(dag.Deps(), StatesWith(dag.Deps(), done, Pending), dag.order)
    ensures !stop ==> dag.States() == StatesWith(dag.Deps(), NextLevel(dag.Deps(), done), Pending)
  {
    completed := [];
    stop := FinishedEarly(dag, done);
    if !stop {
      completed, stop := FindReady(dag, done);
      if stop {
        GiveUp(dag, done);
      } else {
        completed := CompleteRound(dag, completed, done);
      }
    }
  }

  method RunRounds(dag: DelegationGraph, maxIterations: nat) returns (results: seq<NodeId>)
    requires maxIterations > 0
    requires dag.Valid() && forall n :: n in dag.nodes ==> dag.nodes[n].state == Pending
    modifies dag.nodes.Values
    ensures dag.Valid() && dag.States() == FinalStates(dag.Deps(), maxIterations)
    ensures results == CompletionOrder(dag.Deps(), dag.order, maxIterations)
  {
    ghost var deps, order := dag.Deps(), dag.order;
    results := [];
    for round := 0 to maxIterations
      invariant dag.Valid() && dag.States() == AfterRounds(deps, round)
      invariant results == CompletionOrder(deps, order, round)
      invariant round > 0 ==> Done(deps, round - 1) != Done(deps, round)
    {
      DoneGrows(deps, round, round + 1);
      var stop, completed := RunRound(dag, Done(deps, round));
      if stop {
        StuckEnds(deps, order, round, maxIterations);
        return;
      }
      results := results + completed;
    }
  }

  method ExecuteDag(dag: DelegationGraph) returns (results: seq<NodeId>)
    requires dag.Valid() && forall n :: n in dag.nodes ==> dag.nodes[n].state == Pending
    modifies dag.nodes.Values
    ensures dag.Valid() && dag.States() == FinalStates(dag.Deps(), 50)
    ensures results == CompletionOrder(dag.Deps(), dag.order, 50)
  {
    results := RunRounds(dag, MAX_ITERATIONS);
  }

  // ---------- What an execution means ----------

  // The completed nodes are listed once each, after all of their dependencies.
  lemma {:induction false} CompletionOrderIsSound(deps: Deps, order: seq<NodeId>, k: nat)
    requires NoDup(order) && forall n :: n in order <==> n in deps
    ensures NoDup(CompletionOrder(deps, order, k))
    ensures Elems(CompletionOrder(deps, order, k)) == Done(deps, k)
    ensures DependenciesFirst(deps, CompletionOrder(deps, order, k))
  {
    if k == 0 {
      assert Elems<NodeId>([]) == {};
    } else {
      CompletionOrderIsSound(deps, order, k - 1);
      DoneGrows(deps, k - 1, k);
      ReadyIsNextLevel(deps, order, Done(deps, k - 1));
      ReadyAmongIsNoDup(deps, AfterRounds(deps, k - 1), order);
      NextLevelAfter(deps, CompletionOrder(deps, order, k - 1), ReadyAmong(deps, AfterRounds(deps, k - 1), order));
    }
  }

  lemma NextLevelAfter(deps: Deps, earlier: seq<NodeId>, ready: seq<NodeId>)
    requires NoDup(earlier) && NoDup(ready) && DependenciesFirst(deps, earlier)
    requires Elems(ready) == NextLevel(deps, Elems(earlier)) - Elems(earlier)
    ensures NoDup(earlier + ready) && DependenciesFirst(deps, earlier + ready)
    ensures Elems(earlier + ready) == Elems(earlier) + Elems(ready)
  {
    var all := earlier + ready;
    assert forall x :: x in ready ==> x in Elems(ready);
    NoDupConcat(earlier, ready);
    forall i, d | 0 <= i < |all| && all[i] in deps && d in deps[all[i]] ensures d in all[..i] {
      if i < |earlier| {
        assert all[..i] == earlier[..i];
      } else {
        assert all[i] in Elems(ready) && d in Elems(earlier);
        assert all[..i][..|earlier|] == earlier;
      }
    }
  }

  lemma {:induction false} ReadyAmongIsNoDup(deps: Deps, states: map<NodeId, NodeState>, s: seq<NodeId>)
    requires NoDup(s)
    ensures NoDup(ReadyAmong(deps, states, s))
  {
    if s != [] {
      ReadyAmongIsNoDup(deps, states, s[..|s| - 1]);
      var front := ReadyAmong(deps, states, s[..|s| - 1]);
      if s[|s| - 1] !in front { NoDupAppend(front, s[|s| - 1]); }
    }
  }

  // Every dependency chain of schedulable nodes has at most k nodes.
  ghost predicate ChainsWithin(deps: Deps, k: nat) {
    forall n, p :: Schedulable(deps, n) && PathFrom(deps, n, p) ==> |p| <= k
  }

  lemma ChainsWithinIffSettled(deps: Deps, k: nat)
    ensures ChainsWithin(deps, k) <==> Done(deps, k) == Done(deps, k + 1)
    ensures ChainsWithin(deps, k) <==> forall n :: Schedulable(deps, n) ==> n in Done(deps, k)
  {
    forall n { DoneIffShortChains(deps, n, k); }
    DoneGrows(deps, k, k + 1);
    if ChainsWithin(deps, k) {
      forall n | n in Done(deps, k + 1) ensures n in Done(deps, k) { assert Schedulable(deps, n); }
    } else if Done(deps, k) == Done(deps, k + 1) {
      forall n { SettledIsSchedulable(deps, k, n); }
    }
  }

  // With an execution capped at max rounds, every node ends terminal exactly when the dependency
  // chains are shorter than max, or as long as max with nothing left over to fail.
  lemma TerminalIff(deps: Deps, max: nat)
    requires max > 0
    ensures AllTerminal(FinalStates(deps, max)) <==>
      ChainsWithin(deps, max - 1) || (ChainsWithin(deps, max) && forall n :: n in deps ==> Schedulable(deps, n))
  {
    ChainsWithinIffSettled(deps, max - 1);
    ChainsWithinIffSettled(deps, max);
    StatesWithFacts(deps, Done(deps, max));
    forall n | n in Done(deps, max) ensures n in deps && Schedulable(deps, n) { DoneGrows(deps, max, max); }
  }

  // n nodes, each depending on the one before.
  function Name(k: nat): (r: NodeId)
    ensures |r| == k
  {
    seq(k, _ => 'n')
  }

  ghost function Chain(n: nat): Deps {
    if n == 0 then map[] else Chain(n - 1)[Name(n - 1) := if n == 1 then [] else [Name(n - 2)]]
  }

  lemma {:induction false} ChainIs(n: nat, x: NodeId)
    ensures x in Chain(n) <==> |x| < n && x == Name(|x|)
    ensures x in Chain(n) ==> Chain(n)[x] == if |x| == 0 then [] else [Name(|x| - 1)]
  {
    if n > 0 { ChainIs(n - 1, x); }
  }

  lemma {:induction false} ChainDone(n: nat, k: nat, x: NodeId)
    ensures x in Done(Chain(n), k) <==> x in Chain(n) && |x| < k
  {
    ChainIs(n, x);
    if k > 0 && x in Chain(n) && |x| > 0 {
      ChainIs(n, Name(|x| - 1));
      ChainDone(n, k - 1, Name(|x| - 1));
    }
  }

  // A chain over the cap: every node could be scheduled, but the last ones stay pending.
  lemma ChainOverCap(n: nat, max: nat)
    requires 0 < max < n
    ensures forall x :: x in Chain(n) ==> Schedulable(Chain(n), x)
    ensures Name(max) in Chain(n) && FinalStates(Chain(n), max)[Name(max)] == Pending
    ensures !AllTerminal(FinalStates(Chain(n), max))
  {
    forall x | x in Chain(n) ensures Schedulable(Chain(n), x) { ChainDone(n, |x| + 1, x); }
    var last := Name(max - 1);
    ChainIs(n, last);
    ChainIs(n, Name(max));
    ChainDone(n, max - 1, last);
    ChainDone(n, max, last);
    ChainDone(n, max, Name(max));
    assert !FinalStates(Chain(n), max)[Name(max)].Terminal();
  }

  // The executor and Kahn's algorithm agree on what can be scheduled.
  lemma ExecutorAgreesWithKahn(deps: Deps, topological: seq<NodeId>)
    requires forall n :: n in topological <==> Schedulable(deps, n)
    requires ChainsWithin(deps, 49)
    ensures FinalStates(deps, 50) == StatesWith(deps, Elems(topological), Failed)
    ensures Done(deps, 50) == Elems(topological)
  {
    Agreement(deps, topological, 50);
  }

  lemma Agreement(deps: Deps, topological: seq<NodeId>, max: nat)
    requires max > 0 && ChainsWithin(deps, max - 1)
    requires forall n :: n in topological <==> Schedulable(deps, n)
    ensures Done(deps, max - 1) == Done(deps, max) == Elems(topological)
  {
    ChainsWithinIffSettled(deps, max - 1);
    forall n { SettledIsSchedulable(deps, max - 1, n); }
  }
}
