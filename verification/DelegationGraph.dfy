// core/delegation_graph.py: the subtask graph, its ready set and Kahn's topological order.

module DelegationGraphs {
  import opened Sequences

  type NodeId = string

  datatype NodeState = Pending | Ready | Running | Completed | Failed | Skipped {
    predicate Terminal() {
      this in {Completed, Failed, Skipped}
    }
  }

  // The dependency lists of a graph, by node id. A list may repeat an id, name the node itself,
  // or name an id that is not a node.
  type Deps = map<NodeId, seq<NodeId>>

  // ---------- What can be scheduled ----------

  // The nodes all of whose dependencies are in done.
  ghost function NextLevel(deps: Deps, done: set<NodeId>): set<NodeId> {
    set n | n in deps && forall d :: d in deps[n] ==> d in done
  }

  // The nodes that can be completed in at most k rounds.
  ghost function Done(deps: Deps, k: nat): set<NodeId> {
    if k == 0 then {} else NextLevel(deps, Done(deps, k - 1))
  }

  ghost predicate Schedulable(deps: Deps, n: NodeId) {
    exists k: nat :: n in Done(deps, k)
  }

  lemma {:induction false} DoneGrows(deps: Deps, j: nat, k: nat)
    requires j <= k
    ensures Done(deps, j) <= Done(deps, k) <= deps.Keys
    decreases k
  {
    if j == 0 {
      if k > 0 { DoneGrows(deps, 0, k - 1); }
    } else {
      DoneGrows(deps, j - 1, k - 1);
    }
  }

  // Once a round adds nothing, no later round does.
  lemma {:induction false} DoneSettles(deps: Deps, j: nat, k: nat)
    requires j <= k && Done(deps, j) == Done(deps, j + 1)
    ensures Done(deps, k) == Done(deps, j)
    decreases k
  {
    if j < k {
      DoneSettles(deps, j, k - 1);
      assert Done(deps, k) == Done(deps, j + 1);
    }
  }

  lemma SettledIsSchedulable(deps: Deps, j: nat, n: NodeId)
    requires Done(deps, j) == Done(deps, j + 1)
    ensures Schedulable(deps, n) <==> n in Done(deps, j)
  {
    if Schedulable(deps, n) {
      var k: nat :| n in Done(deps, k);
      if k <= j { DoneGrows(deps, k, j); } else { DoneSettles(deps, j, k); }
    }
  }

  // ---------- Paths along dependencies ----------

  ghost predicate IsPath(deps: Deps, p: seq<NodeId>) {
    p != [] && forall i :: 0 <= i < |p| - 1 ==> p[i] in deps && p[i + 1] in deps[p[i]]
  }

  ghost predicate PathFrom(deps: Deps, n: NodeId, p: seq<NodeId>) {
    IsPath(deps, p) && p[0] == n
  }

  // Following dependencies from n can leave the graph ...
  ghost predicate ReachesMissing(deps: Deps, n: NodeId) {
    exists p :: PathFrom(deps, n, p) && p[|p| - 1] !in deps
  }

  // ... or come back to a node already visited.
  ghost predicate ReachesCycle(deps: Deps, n: NodeId) {
    exists p :: PathFrom(deps, n, p) && !NoDup(p)
  }

  lemma {:induction false} PathDescends(deps: Deps, p: seq<NodeId>, k: nat, i: nat)
    requires IsPath(deps, p) && p[0] in Done(deps, k) && i < |p|
    ensures i < k && p[i] in Done(deps, k - i)
  {
    if i > 0 {
      PathDescends(deps, p, k, i - 1);
      assert p[(i - 1) + 1] in deps[p[i - 1]];
      assert p[i] in Done(deps, k - i);
    }
  }

  // Paths from a node that needs k rounds have at most k nodes.
  lemma PathBounded(deps: Deps, p: seq<NodeId>, k: nat)
    requires IsPath(deps, p) && p[0] in Done(deps, k)
    ensures |p| <= k
  {
    PathDescends(deps, p, k, |p| - 1);
  }

  // The least number of rounds after which n is done.
  ghost function Rank(deps: Deps, n: NodeId, k: nat): (r: nat)
    requires n in Done(deps, k)
    ensures r <= k && n in Done(deps, r)
    ensures forall j: nat :: n in Done(deps, j) ==> r <= j
    decreases k
  {
    if n in Done(deps, k - 1) then Rank(deps, n, k - 1)
    else
      assert forall j: nat :: n in Done(deps, j) ==> k <= j by {
        forall j: nat | n in Done(deps, j) ensures k <= j {
          if j < k { DoneGrows(deps, j, k - 1); }
        }
      }
      k
  }

  lemma {:induction false} RankDescends(deps: Deps, p: seq<NodeId>, k: nat, i: nat, j: nat)
    requires IsPath(deps, p) && i <= j < |p| && p[i] in Done(deps, k)
    ensures p[j] in Done(deps, k) && Rank(deps, p[j], k) <= Rank(deps, p[i], k) - (j - i)
  {
    if i < j {
      RankDescends(deps, p, k, i, j - 1);
      var r := Rank(deps, p[j - 1], k);
      assert p[j] in Done(deps, r - 1);
      DoneGrows(deps, r - 1, k);
    }
  }

  lemma SchedulablePathsAreSimple(deps: Deps, n: NodeId, p: seq<NodeId>)
    requires Schedulable(deps, n) && PathFrom(deps, n, p)
    ensures NoDup(p) && p[|p| - 1] in deps
  {
    NoDupMeansDistinct(p);
    var k: nat :| n in Done(deps, k);
    forall i, j | 0 <= i < j < |p| ensures p[i] != p[j] {
      RankDescends(deps, p, k, 0, i);
      RankDescends(deps, p, k, i, j);
    }
    PathDescends(deps, p, k, |p| - 1);
    DoneGrows(deps, k - (|p| - 1), k);
  }

  // From a node that is not done after k rounds there is a dependency path of k + 1 nodes, or
  // a path that leaves the graph.
  lemma {:induction false} LongPath(deps: Deps, n: NodeId, k: nat) returns (p: seq<NodeId>)
    requires n !in Done(deps, k)
    ensures PathFrom(deps, n, p)
    ensures p[|p| - 1] !in deps || |p| == k + 1
    decreases k
  {
    if n !in deps || k == 0 {
      p := [n];
    } else {
      var d :| d in deps[n] && d !in Done(deps, k - 1);
      var rest := LongPath(deps, d, k - 1);
      p := [n] + rest;
      forall i | 0 <= i < |p| - 1 ensures p[i] in deps && p[i + 1] in deps[p[i]] {
        if i > 0 { assert p[i] == rest[i - 1] && p[i + 1] == rest[i]; }
      }
    }
  }

  // A path of more nodes than the graph has, all inside the graph, repeats one.
  lemma PathInsideGraph(deps: Deps, p: seq<NodeId>)
    requires IsPath(deps, p) && p[|p| - 1] in deps && |p| > |deps|
    ensures !NoDup(p)
  {
    forall x | x in p ensures x in deps.Keys {
      var i :| 0 <= i < |p| && p[i] == x;
    }
    assert |deps.Keys| == |deps|;
    if NoDup(p) {
      Pigeonhole(p, deps.Keys);
    }
  }

  // The schedulable nodes are exactly those from which neither a missing id nor a cycle is reachable.
  lemma SchedulableIffClosedAndAcyclic(deps: Deps, n: NodeId)
    ensures Schedulable(deps, n) <==> !ReachesMissing(deps, n) && !ReachesCycle(deps, n)
  {
    if Schedulable(deps, n) {
      forall p | PathFrom(deps, n, p) ensures NoDup(p) && p[|p| - 1] in deps {
        SchedulablePathsAreSimple(deps, n, p);
      }
    } else {
      assert n !in Done(deps, |deps|);
      var p := LongPath(deps, n, |deps|);
      if p[|p| - 1] in deps { PathInsideGraph(deps, p); }
    }
  }

  // An order of the schedulable nodes is an order of all nodes exactly when no dependency leads
  // out of the graph or around in a circle.
  lemma OrdersAllIff(deps: Deps, order: seq<NodeId>)
    requires NoDup(order) && forall n :: n in order <==> Schedulable(deps, n)
    ensures |order| == |deps| <==> forall n :: n in deps ==> !ReachesMissing(deps, n) && !ReachesCycle(deps, n)
  {
    forall n ensures Schedulable(deps, n) <==> !ReachesMissing(deps, n) && !ReachesCycle(deps, n)
    { SchedulableIffClosedAndAcyclic(deps, n); }
    forall n | n in order ensures n in deps {
      var k: nat :| n in Done(deps, k);
      DoneGrows(deps, k, k);
    }
    NoDupCount(order);
    assert |deps.Keys| == |deps| && Elems(order) <= deps.Keys;
    if |order| == |deps| {
      EqualCount(Elems(order), deps.Keys);
    }
    assert (forall n :: n in deps ==> Schedulable(deps, n)) ==> Elems(order) == deps.Keys;
  }

  // n is done after k rounds exactly when it is schedulable and every dependency path from it
  // has at most k nodes.
  lemma DoneIffShortChains(deps: Deps, n: NodeId, k: nat)
    ensures n in Done(deps, k) <==>
            Schedulable(deps, n) && forall p :: PathFrom(deps, n, p) ==> |p| <= k
  {
    if n in Done(deps, k) {
      forall p | PathFrom(deps, n, p) ensures |p| <= k { PathBounded(deps, p, k); }
    } else if Schedulable(deps, n) {
      var p := LongPath(deps, n, k);
      SchedulablePathsAreSimple(deps, n, p);
      assert PathFrom(deps, n, p) && |p| == k + 1;
    }
  }

  // ---------- Counting unmet dependencies ----------

  // The number of positions of ds whose id is not in r; a repeated id counts every time.
  ghost function Unmet(ds: seq<NodeId>, r: set<NodeId>): (u: nat)
    ensures u == 0 <==> forall d :: d in ds ==> d in r
  {
    if ds == [] then 0
    else
      assert forall d :: d in ds <==> d in ds[..|ds| - 1] || d == ds[|ds| - 1];
      Unmet(ds[..|ds| - 1], r) + if ds[|ds| - 1] in r then 0 else 1
  }

  lemma {:induction false} UnmetAll(ds: seq<NodeId>)
    ensures Unmet(ds, {}) == |ds|
  {
    if ds != [] { UnmetAll(ds[..|ds| - 1]); }
  }

  // Meeting one more id lowers the count by the number of times it is listed.
  lemma {:induction false} UnmetMeets(ds: seq<NodeId>, r: set<NodeId>, n: NodeId)
    requires n !in r
    ensures Unmet(ds, r + {n}) == Unmet(ds, r) - Times(ds, n)
  {
    if ds != [] {
      UnmetMeets(ds[..|ds| - 1], r, n);
    }
  }

  // ds lists, among the nodes in seen, those that depend on d, once for each time they list it.
  ghost predicate IsReverse(deps: Deps, seen: seq<NodeId>, d: NodeId, ds: seq<NodeId>) {
    forall m {:trigger Times(ds, m)} :: Times(ds, m) == if m in seen && m in deps then Times(deps[m], d) else 0
  }

  ghost predicate Reverses(deps: Deps, seen: seq<NodeId>, dependents: Deps) {
    dependents.Keys == deps.Keys && forall d {:trigger dependents[d]} :: d in deps ==>
      IsReverse(deps, seen, d, dependents[d])
  }

  // Where Kahn's loop stands: the nodes emitted and waiting are those with no unmet dependency.
  ghost predicate Balanced(deps: Deps, emitted: set<NodeId>, waiting: set<NodeId>, counts: map<NodeId, int>) {
    && emitted !! waiting
    && emitted + waiting <= deps.Keys == counts.Keys
    && (forall n {:trigger counts[n]} :: n in deps ==> counts[n] == Unmet(deps[n], emitted))
    && (forall n {:trigger counts[n]} :: n in deps ==> (counts[n] == 0 <==> n in emitted + waiting))
  }

  // Every node comes after all of its dependencies.
  ghost predicate DependenciesFirst(deps: Deps, out: seq<NodeId>) {
    forall i, d :: 0 <= i < |out| && out[i] in deps && d in deps[out[i]] ==> d in out[..i]
  }

  lemma {:induction false} EmittedIsDone(deps: Deps, out: seq<NodeId>, i: nat)
    requires DependenciesFirst(deps, out) && (forall n :: n in out ==> n in deps) && i < |out|
    ensures out[i] in Done(deps, i + 1)
    decreases i
  {
    forall d | d in deps[out[i]] ensures d in Done(deps, i) {
      var j :| 0 <= j < i && out[j] == d;
      EmittedIsDone(deps, out, j);
      DoneGrows(deps, j + 1, i);
    }
  }

  // A set that holds every node all of whose dependencies it holds contains every done node.
  lemma {:induction false} DoneInClosed(deps: Deps, r: set<NodeId>, k: nat)
    requires forall n :: n in deps && (forall d :: d in deps[n] ==> d in r) ==> n in r
    ensures Done(deps, k) <= r
  {
    if k > 0 { DoneInClosed(deps, r, k - 1); }
  }

  // When the queue runs dry, what was emitted is exactly what can be scheduled.
  lemma KahnEnds(deps: Deps, out: seq<NodeId>, counts: map<NodeId, int>)
    requires Balanced(deps, Elems(out), {}, counts) && DependenciesFirst(deps, out)
    ensures forall n :: n in out <==> Schedulable(deps, n)
  {
    forall n ensures n in out <==> Schedulable(deps, n) {
      if n in out {
        assert forall m :: m in out ==> m in Elems(out);
        var i :| 0 <= i < |out| && out[i] == n;
        EmittedIsDone(deps, out, i);
      } else if Schedulable(deps, n) {
        var k: nat :| n in Done(deps, k);
        forall m | m in deps && forall d :: d in deps[m] ==> d in Elems(out) ensures m in Elems(out) {
          assert counts[m] == 0;
        }
        DoneInClosed(deps, Elems(out), k);
      }
    }
  }

  lemma KahnStarts(deps: Deps, queue: seq<NodeId>, counts: map<NodeId, int>)
    requires counts.Keys == deps.Keys
    requires forall n :: n in deps ==> counts[n] == |deps[n]|
    requires forall n :: n in queue <==> n in deps && counts[n] == 0
    ensures Balanced(deps, {}, Elems(queue), counts)
  {
    forall n | n in deps ensures counts[n] == Unmet(deps[n], {}) { UnmetAll(deps[n]); }
  }

  lemma EmitNext(deps: Deps, out: seq<NodeId>, n: NodeId, waiting: set<NodeId>, counts: map<NodeId, int>)
    requires Balanced(deps, Elems(out), waiting, counts) && n in waiting && DependenciesFirst(deps, out)
    ensures DependenciesFirst(deps, out + [n])
  {
    forall i, d | 0 <= i < |out + [n]| && (out + [n])[i] in deps && d in deps[(out + [n])[i]]
      ensures d in (out + [n])[..i]
    {
      assert (out + [n])[..i] == out[..i];
      if i == |out| {
        assert counts[n] == 0;
        assert d in Elems(out) && out[..i] == out;
      }
    }
  }

  // Append id to the dependents of everything it depends on, once for each time it is listed.
  method LinkAll(id: NodeId, ds: seq<NodeId>, dependents: Deps) returns (linked: Deps)
    ensures linked.Keys == dependents.Keys
    ensures forall d, m :: d in dependents ==>
      Times(linked[d], m) == Times(dependents[d], m) + if m == id then Times(ds, d) else 0
  {
    linked := dependents;
    assert ds[..0] == [];
    assert forall d :: Times(ds[..0], d) == 0;
    for j := 0 to |ds|
      invariant linked.Keys == dependents.Keys
      invariant forall d, m :: d in dependents ==>
        Times(linked[d], m) == Times(dependents[d], m) + if m == id then Times(ds[..j], d) else 0
    {
      assert ds[..j + 1] == ds[..j] + [ds[j]];
      TimesAppend(ds[..j], ds[j]);
      if ds[j] in linked {
        TimesAppend(linked[ds[j]], id);
        linked := linked[ds[j] := linked[ds[j]] + [id]];
      }
    }
    assert ds[..|ds|] == ds;
  }

  lemma LinkedReverses(deps: Deps, seen: seq<NodeId>, id: NodeId, dependents: Deps, linked: Deps)
    requires Reverses(deps, seen, dependents) && id in deps && id !in seen
    requires linked.Keys == dependents.Keys
    requires forall d, m :: d in dependents ==>
      Times(linked[d], m) == Times(dependents[d], m) + if m == id then Times(deps[id], d) else 0
    ensures Reverses(deps, seen + [id], linked)
  {
    forall d | d in deps ensures IsReverse(deps, seen + [id], d, linked[d]) {
      assert IsReverse(deps, seen, d, dependents[d]);
    }
  }

  // low is counts lowered by the first j dependents; seen holds what has reached zero.
  ghost predicate Lowered(counts: map<NodeId, int>, dependents: seq<NodeId>, j: nat, seen: set<NodeId>,
                          low: map<NodeId, int>)
  {
    && j <= |dependents|
    && low.Keys == counts.Keys && seen <= counts.Keys
    && (forall m :: m in counts ==> low[m] == counts[m] - Times(dependents[..j], m))
    && (forall m :: m in counts ==> (low[m] <= 0 <==> m in seen))
  }

  lemma LowerNone(counts: map<NodeId, int>, dependents: seq<NodeId>, seen: set<NodeId>)
    requires seen <= counts.Keys
    requires forall m :: m in counts ==> (counts[m] <= 0 <==> m in seen)
    ensures Lowered(counts, dependents, 0, seen, counts)
  {
    assert dependents[..0] == [];
  }

  lemma LowerOne(counts: map<NodeId, int>, dependents: seq<NodeId>, j: nat, seen: set<NodeId>,
                 low: map<NodeId, int>)
    requires j < |dependents| && dependents[j] in counts
    requires Lowered(counts, dependents, j, seen, low)
    ensures var m := dependents[j];
      var lower := low[m := low[m] - 1];
      && Lowered(counts, dependents, j + 1, if lower[m] == 0 then seen + {m} else seen, lower)
      && (lower[m] == 0 ==> m !in seen)
  {
    assert dependents[..j + 1] == dependents[..j] + [dependents[j]];
    TimesAppend(dependents[..j], dependents[j]);
  }

  // Lower the count of every dependent, once for each time it is listed, and queue what drops to zero.
  method Release(dependents: seq<NodeId>, queue: seq<NodeId>, counts: map<NodeId, int>, ghost seen: set<NodeId>)
    returns (queue': seq<NodeId>, low: map<NodeId, int>, ghost seen': set<NodeId>)
    requires NoDup(queue) && Elems(queue) <= seen <= counts.Keys
    requires forall m :: m in dependents ==> m in counts
    requires forall m :: m in counts ==> (counts[m] <= 0 <==> m in seen)
    ensures NoDup(queue') && seen <= seen' && Elems(queue') == Elems(queue) + (seen' - seen)
    ensures Lowered(counts, dependents, |dependents|, seen', low)
  {
    queue', low, seen' := queue, counts, seen;
    LowerNone(counts, dependents, seen);
    for j := 0 to |dependents|
      invariant NoDup(queue') && seen <= seen' && Elems(queue') == Elems(queue) + (seen' - seen)
      invariant Lowered(counts, dependents, j, seen', low)
    {
      var m := dependents[j];
      LowerOne(counts, dependents, j, seen', low);
      low := low[m := low[m] - 1];
      if low[m] == 0 {
        NoDupAppend(queue', m);
        queue', seen' := queue' + [m], seen' + {m};
      }
    }
  }

  // Once its dependents are handled, n counts as emitted.
  lemma Emitted(deps: Deps, all: seq<NodeId>, n: NodeId, dependents: seq<NodeId>, emitted: set<NodeId>,
                waiting: set<NodeId>, counts: map<NodeId, int>, seen: set<NodeId>, low: map<NodeId, int>)
    requires Balanced(deps, emitted, waiting, counts) && n in waiting
    requires IsReverse(deps, all, n, dependents) && forall m :: m in deps ==> m in all
    requires Lowered(counts, dependents, |dependents|, seen, low) && emitted + waiting <= seen
    ensures Balanced(deps, emitted + {n}, seen - (emitted + {n}), low)
  {
    assert dependents[..|dependents|] == dependents;
    forall m | m in deps ensures low[m] == Unmet(deps[m], emitted + {n}) {
      UnmetMeets(deps[m], emitted, n);
    }
  }

  lemma KahnReleasable(deps: Deps, all: seq<NodeId>, n: NodeId, dependents: seq<NodeId>, emitted: set<NodeId>,
                       waiting: set<NodeId>, counts: map<NodeId, int>)
    requires Balanced(deps, emitted, waiting, counts) && IsReverse(deps, all, n, dependents)
    ensures forall m :: m in counts ==> (counts[m] <= 0 <==> m in emitted + waiting)
    ensures forall m :: m in dependents ==> m in counts
  {
    forall m | m in dependents ensures m in counts { assert Times(dependents, m) > 0; }
  }

  // Emit the head of the queue.
  method EmitHead(ghost deps: Deps, ghost all: seq<NodeId>, dependents: Deps, ghost emitted: set<NodeId>,
                  queue: seq<NodeId>, counts: map<NodeId, int>)
    returns (queue': seq<NodeId>, counts': map<NodeId, int>)
    requires queue != [] && NoDup(queue) && Balanced(deps, emitted, Elems(queue), counts)
    requires Reverses(deps, all, dependents) && forall m :: m in deps ==> m in all
    ensures NoDup(queue') && queue[0] !in queue'
    ensures Balanced(deps, emitted + {queue[0]}, Elems(queue'), counts')
  {
    var n, rest := queue[0], queue[1..];
    NoDupTail(queue);
    KahnReleasable(deps, all, n, dependents[n], emitted, Elems(queue), counts);
    ghost var seen := emitted + Elems(queue);
    ghost var seen';
    queue', counts', seen' := Release(dependents[n], rest, counts, seen);
    Emitted(deps, all, n, dependents[n], emitted, Elems(queue), counts, seen', counts');
    assert Elems(queue') == seen' - (emitted + {n});
  }

  // The main loop of Kahn's algorithm.
  method EmitAll(ghost deps: Deps, ghost all: seq<NodeId>, dependents: Deps,
                 initial: seq<NodeId>, initialCounts: map<NodeId, int>) returns (result: seq<NodeId>)
    requires NoDup(initial) && Balanced(deps, {}, Elems(initial), initialCounts)
    requires Reverses(deps, all, dependents) && forall m :: m in deps ==> m in all
    ensures NoDup(result)
    ensures forall n :: n in result <==> Schedulable(deps, n)
    ensures DependenciesFirst(deps, result)
  {
    var queue, counts := initial, initialCounts;
    assert Elems<NodeId>([]) == {};
    result := [];
    while queue != []
      invariant NoDup(result) && NoDup(queue) && Balanced(deps, Elems(result), Elems(queue), counts)
      invariant DependenciesFirst(deps, result)
      decreases |deps| - |result|
    {
      var n := queue[0];
      EmitNext(deps, result, n, Elems(queue), counts);
      queue, counts := EmitHead(deps, all, dependents, Elems(result), queue, counts);
      NoDupAppend(result, n);
      result := result + [n];
      NoDupFits(result, deps);
    }
    KahnEnds(deps, result, counts);
  }

  // n has not started and all its dependencies are completed nodes.
  ghost predicate ReadyAt(deps: Deps, states: map<NodeId, NodeState>, n: NodeId) {
    && n in deps && n in states && states[n] == Pending
    && Satisfied(states, deps[n])
  }

  ghost predicate Satisfied(states: map<NodeId, NodeState>, ds: seq<NodeId>) {
    forall d :: d in ds ==> d in states && states[d] == Completed
  }

  ghost function ReadyAmong(deps: Deps, states: map<NodeId, NodeState>, s: seq<NodeId>): (r: seq<NodeId>)
    ensures forall n :: n in r <==> n in s && ReadyAt(deps, states, n)
  {
    if s == [] then []
    else
      var front, n := ReadyAmong(deps, states, s[..|s| - 1]), s[|s| - 1];
      if ReadyAt(deps, states, n) then front + [n] else front
  }

  ghost function Marked(states: map<NodeId, NodeState>, ns: seq<NodeId>, state: NodeState): map<NodeId, NodeState> {
    map n | n in states :: if n in ns then state else states[n]
  }

  // Turning earlier nodes READY satisfies no dependency, so it does not matter to the next node.
  lemma ReadyNext(deps: Deps, states: map<NodeId, NodeState>, s: seq<NodeId>, i: nat)
    requires i < |s| && s[i] in states && s[i] !in s[..i]
    ensures var ready := ReadyAmong(deps, states, s[..i]);
      var now := Marked(states, ready, Ready);
      && (ReadyAt(deps, now, s[i]) <==> ReadyAt(deps, states, s[i]))
      && ReadyAmong(deps, states, s[..i + 1]) == ready + (if ReadyAt(deps, states, s[i]) then [s[i]] else [])
      && now[s[i] := Ready] == Marked(states, ready + [s[i]], Ready)
  {
    var ready := ReadyAmong(deps, states, s[..i]);
    var now := Marked(states, ready, Ready);
    assert s[..i + 1][..i] == s[..i];
    assert forall d :: d in now && now[d] == Completed <==> d in states && states[d] == Completed;
  }

  class SubtaskNode {
    const id: NodeId
    const dependsOn: seq<NodeId>
    var state: NodeState

    constructor (id: NodeId, dependsOn: seq<NodeId>)
      ensures this.id == id && this.dependsOn == dependsOn && state == Pending
    {
      this.id, this.dependsOn, state := id, dependsOn, Pending;
    }
  }

  class DelegationGraph {
    // The nodes dictionary: insertion order and contents.
    var order: seq<NodeId>
    var nodes: map<NodeId, SubtaskNode>

    ghost predicate Valid()
      reads this, nodes.Values
    {
      && NoDup(order)
      && (forall n :: n in order <==> n in nodes)
      && (forall n :: n in nodes ==> nodes[n].id == n)
    }

    ghost function Deps(): (r: Deps)
      reads this
    {
      map n | n in nodes :: nodes[n].dependsOn
    }

    ghost function States(): (r: map<NodeId, NodeState>)
      reads this, nodes.Values
    {
      map n | n in nodes :: nodes[n].state
    }

    constructor ()
      ensures Valid() && order == []
    {
      order, nodes := [], map[];
    }

    // Adding under an id already present replaces that node and keeps its place.
    method AddNode(node: SubtaskNode)
      requires Valid()
      modifies this
      ensures Valid() && nodes == old(nodes)[node.id := node]
      ensures order == if node.id in old(nodes) then old(order) else old(order) + [node.id]
    {
      if node.id !in nodes { order := order + [node.id]; }
      nodes := nodes[node.id := node];
    }

    method SetState(n: NodeId, state: NodeState)
      requires Valid() && n in nodes
      modifies nodes[n]
      ensures Valid() && States() == old(States())[n := state]
    {
      nodes[n].state := state;
    }

    method IsComplete() returns (complete: bool)
      requires Valid()
      ensures complete <==> forall n :: n in nodes ==> States()[n] in {Completed, Failed, Skipped}
    {
      for i := 0 to |order|
        invariant forall j :: 0 <= j < i ==> nodes[order[j]].state.Terminal()
      {
        if !nodes[order[i]].state.Terminal() {
          assert States()[order[i]] == nodes[order[i]].state;
          return false;
        }
      }
      return true;
    }

    method HasRunning() returns (running: bool)
      requires Valid()
      ensures running <==> exists n :: n in nodes && States()[n] == Running
    {
      for i := 0 to |order|
        invariant forall j :: 0 <= j < i ==> nodes[order[j]].state != Running
      {
        if nodes[order[i]].state == Running {
          assert States()[order[i]] == Running;
          return true;
        }
      }
      return false;
    }

    method AllCompleted(ds: seq<NodeId>) returns (allDone: bool)
      requires Valid()
      ensures allDone <==> Satisfied(States(), ds)
    {
      for j := 0 to |ds|
        invariant Satisfied(States(), ds[..j])
      {
        if ds[j] !in nodes || nodes[ds[j]].state != Completed {
          assert ds[j] in ds && ds[j] in States() ==> States()[ds[j]] == nodes[ds[j]].state;
          return false;
        }
      }
      return true;
    }

    // A pending node whose dependencies are completed becomes READY.
    method MarkIfReady(n: NodeId) returns (marked: bool)
      requires Valid() && n in nodes
      modifies nodes[n]
      ensures Valid() && marked == ReadyAt(Deps(), old(States()), n)
      ensures States() == if marked then old(States())[n := Ready] else old(States())
    {
      marked := false;
      assert States()[n] == nodes[n].state;
      if nodes[n].state == Pending {
        marked := AllCompleted(nodes[n].dependsOn);
        if marked { SetState(n, Ready); }
      }
    }

    // The nodes that can start now, in insertion order; each becomes READY.
    method ReadyNodes() returns (ready: seq<NodeId>)
      requires Valid()
      modifies nodes.Values
      ensures Valid()
      ensures ready == ReadyAmong(Deps(), old(States()), order)
      ensures States() == Marked(old(States()), ready, Ready)
    {
      ghost var deps, before := Deps(), States();
      ready := [];
      for i := 0 to |order|
        invariant Valid()
        invariant ready == ReadyAmong(deps, before, order[..i])
        invariant States() == Marked(before, ready, Ready)
      {
        NoDupAt(order, i);
        ReadyNext(deps, before, order, i);
        var marked := MarkIfReady(order[i]);
        if marked { ready := ready + [order[i]]; }
      }
      assert order[..|order|] == order;
    }

    method DependentsOf() returns (dependents: Deps)
      requires Valid()
      ensures Reverses(Deps(), order, dependents)
    {
      ghost var deps := Deps();
      dependents := map n | n in nodes :: [];
      for i := 0 to |order|
        invariant Reverses(deps, order[..i], dependents)
      {
        NoDupAt(order, i);
        var linked := LinkAll(order[i], nodes[order[i]].dependsOn, dependents);
        LinkedReverses(deps, order[..i], order[i], dependents, linked);
        assert order[..i + 1] == order[..i] + [order[i]];
        dependents := linked;
      }
      assert order[..|order|] == order;
    }

    // Kahn's algorithm.
    method TopologicalOrder() returns (result: seq<NodeId>)
      requires Valid()
      ensures NoDup(result)
      ensures forall n :: n in result <==> Schedulable(Deps(), n)
      ensures DependenciesFirst(Deps(), result)
    {
      ghost var deps := Deps();
      var dependents := DependentsOf();
      var counts: map<NodeId, int> := map n | n in nodes :: |nodes[n].dependsOn|;
      var queue := Filter(order, n => n in counts && counts[n] == 0);
      KahnStarts(deps, queue, counts);
      result := EmitAll(deps, order, dependents, queue, counts);
    }
  }
}
