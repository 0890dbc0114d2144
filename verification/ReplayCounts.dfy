// engine/events/store.py and engine/events/replay.py: what the rebuilt states hold, in terms of the
// fields of the events.

module ReplayCounts {
  import opened Basics
  import opened Sequences
  import opened EventReplays

  // The selected events are those from the given time on, or all when no time or zero is given.
  lemma {:induction false} SinceIs(events: seq<Event>, since: Option<real>)
    ensures Since(events, since) ==
      Filter(events, (e: Event) => since == None || since == Some(0.0) || since.value <= e.timestamp)
  {
    if events != [] { SinceIs(events[..|events| - 1], since); }
  }

  // e["data"].get(key, default)
  ghost function Field(e: Event, key: string, default: Value): Value {
    if e.data.Dict? && key in e.data.fields then e.data.fields[key] else default
  }

  ghost predicate SaysCompleted(e: Event) {
    e.data.Dict? && "status" in e.data.fields && e.data.fields["status"] == Text("completed")
  }

  ghost function OfKind(events: seq<Event>, kind: Kind): seq<Event> {
    Filter(events, (e: Event) => e.kind == kind)
  }

  ghost function HowMany(events: seq<Event>, p: Event -> bool): nat {
    |Filter(events, p)|
  }

  ghost function Commands(events: seq<Event>): seq<(Value, Value)> {
    if events == [] then []
    else
      var front, e := Commands(events[..|events| - 1]), events[|events| - 1];
      if e.kind == CommandExecuted then front + [(Field(e, "command", Null), Field(e, "status", Null))] else front
  }

  ghost function Fields(events: seq<Event>, kind: Kind, key: string, default: Value): seq<Value> {
    if events == [] then []
    else
      var front, e := Fields(events[..|events| - 1], kind, key, default), events[|events| - 1];
      if e.kind == kind then front + [Field(e, key, default)] else front
  }

  // How often the plugin is listed: once more for each loading, once less for each unloading.
  ghost function Balance(events: seq<Event>, plugin: Value): nat {
    if events == [] then 0
    else Balanced(Balance(events[..|events| - 1], plugin), events[|events| - 1], plugin)
  }

  ghost function Balanced(n: nat, e: Event, plugin: Value): nat {
    if e.kind == PluginLoaded && Field(e, "plugin", Null) == plugin then n + 1
    else if e.kind == PluginUnloaded && Field(e, "plugin", Null) == plugin && n > 0 then n - 1
    else n
  }

  ghost predicate Completes(e: Event) {
    e.kind == JobFinished && SaysCompleted(e)
  }

  ghost predicate FinishesOtherwise(e: Event) {
    e.kind == JobFinished && !SaysCompleted(e)
  }

  // The first replay counts a finished job as completed exactly when its status says so.
  lemma {:induction false} TallyIs(events: seq<Event>, plugin: Value)
    requires AllDicts(events)
    ensures var t := Tallied(events);
      && t.completed == HowMany(events, Completes) && t.failed == HowMany(events, FinishesOtherwise)
      && t.commands == Commands(events) && t.errors == Fields(events, ErrorOccurred, "type", Null)
      && multiset(t.plugins)[plugin] == Balance(events, plugin)
  {
    TalliedCounts(events);
    TalliedLists(events);
    TalliedPlugins(events, plugin);
  }

  lemma {:induction false} TalliedCounts(events: seq<Event>)
    requires AllDicts(events)
    ensures Tallied(events).completed == HowMany(events, Completes)
    ensures Tallied(events).failed == HowMany(events, FinishesOtherwise)
  {
    if events != [] {
      TalliedCounts(events[..|events| - 1]);
      assert events[|events| - 1].data.Dict? || events[|events| - 1].kind.Other?;
    }
  }

  lemma {:induction false} TalliedLists(events: seq<Event>)
    ensures Tallied(events).commands == Commands(events)
    ensures Tallied(events).errors == Fields(events, ErrorOccurred, "type", Null)
  {
    if events != [] { TalliedLists(events[..|events| - 1]); }
  }

  lemma {:induction false} TalliedPlugins(events: seq<Event>, plugin: Value)
    ensures multiset(Tallied(events).plugins)[plugin] == Balance(events, plugin)
  {
    if events != [] {
      var front, e := events[..|events| - 1], events[|events| - 1];
      TalliedPlugins(front, plugin);
      PluginCounted(Tallied(front), e, plugin);
    }
  }

  lemma PluginCounted(t: Tally, e: Event, plugin: Value)
    ensures multiset(Count(t, e).plugins)[plugin] == Balanced(multiset(t.plugins)[plugin], e, plugin)
  {
    var name := e.data.Get("plugin");
    if e.kind == PluginLoaded {
      assert multiset(t.plugins + [name]) == multiset(t.plugins) + multiset{name};
    } else if e.kind == PluginUnloaded {
      RemovedOnce(t.plugins, name, plugin);
    }
  }

  lemma {:induction false} RemovedOnce(list: seq<Value>, x: Value, y: Value)
    ensures multiset(RemoveFirst(list, x))[y] == multiset(list)[y] - if x == y && y in list then 1 else 0
  {
    if list != [] {
      var head, rest := list[0], list[1..];
      assert list == [head] + rest;
      assert multiset(list) == multiset{head} + multiset(rest);
      if head != x {
        RemovedOnce(rest, x, y);
        assert multiset(RemoveFirst(list, x)) == multiset{head} + multiset(RemoveFirst(rest, x));
      }
    }
  }

  // And so does the second, which also counts the jobs started and recovered.
  lemma {:induction false} BuiltIs(events: seq<Event>, plugin: Value)
    requires AllDicts(events)
    ensures var b := BuiltFrom(events);
      && b.started == |OfKind(events, JobStarted)| && b.recovered == |OfKind(events, JobRecovered)|
      && b.completed == HowMany(events, Completes) && b.failed == HowMany(events, FinishesOtherwise)
      && WithoutTimes(b.commands) == Commands(events)
      && b.errors == Fields(events, ErrorOccurred, "type", Text("unknown"))
      && b.unloaded == Fields(events, PluginUnloaded, "plugin", Null)
      && multiset(b.loaded)[plugin] == Balance(events, plugin)
  {
    TallyIs(events, plugin);
    ReplaysAgree(events);
    BuiltCounts(events);
  }

  lemma {:induction false} BuiltCounts(events: seq<Event>)
    requires AllDicts(events)
    ensures var b := BuiltFrom(events);
      && b.started == |OfKind(events, JobStarted)| && b.recovered == |OfKind(events, JobRecovered)|
      && b.errors == Fields(events, ErrorOccurred, "type", Text("unknown"))
      && b.unloaded == Fields(events, PluginUnloaded, "plugin", Null)
      && forall i :: 0 <= i < |b.commands| ==> exists e :: e in events && e.timestamp == b.commands[i].timestamp
  {
    if events != [] {
      var front, e := events[..|events| - 1], events[|events| - 1];
      BuiltCounts(front);
      assert e.data.Dict? || e.kind.Other?;
      assert e in events && forall x :: x in front ==> x in events;
    }
  }

  // An event without a dictionary only counts as a job started or recovered: its handler raises.
  lemma WithoutDictionary(events: seq<Event>, e: Event)
    requires !e.data.Dict?
    ensures var b := BuiltFrom(events);
      BuiltFrom(events + [e]) ==
        b.(started := b.started + if e.kind == JobStarted then 1 else 0,
           recovered := b.recovered + if e.kind == JobRecovered then 1 else 0)
  {
    assert (events + [e])[..|events|] == events;
  }

  // The job builder lists every started job with its id and the first 80 characters of its task, and
  // every recovered one with its id.
  ghost function Listed(events: seq<Event>): seq<JobEntry> {
    if events == [] then []
    else
      var front, e := Listed(events[..|events| - 1]), events[|events| - 1];
      var task := Field(e, "task", Text(""));
      if e.kind == JobStarted && task.Text? && |task.text| > 80 then
        front + [JobEntry(Field(e, "job_id", Text("unknown")), Text(task.text[..80]))]
      else if e.kind == JobStarted then front + [JobEntry(Field(e, "job_id", Text("unknown")), task)]
      else if e.kind == JobRecovered then front + [JobEntry(Field(e, "job_id", Null), Text(""))]
      else front
  }

  lemma {:induction false} EntriesAreListed(events: seq<Event>)
    ensures EntriesFrom(events) == Listed(events)
  {
    if events != [] { EntriesAreListed(events[..|events| - 1]); }
  }

  // The first replay raises exactly on an event that it looks into and that carries no dictionary.
  lemma TallyBreaksIff(events: seq<Event>)
    ensures TallyBreaks(events) <==>
      exists e :: e in events && !e.data.Dict? && e.kind != JobStarted && e.kind != JobRecovered && !e.kind.Other?
  {
    if TallyBreaks(events) {
      var i :| 0 <= i < |events| && BreaksTally(events[i]);
      assert events[i] in events;
    }
    if e :| e in events && !e.data.Dict? && e.kind != JobStarted && e.kind != JobRecovered && !e.kind.Other? {
      var i :| 0 <= i < |events| && events[i] == e;
      assert BreaksTally(events[i]);
    }
  }

  // The second raises on a job event that carries no dictionary, on a started job whose task is
  // neither a text nor a list, ...
  lemma ReplayBreaksOn(events: seq<Event>, i: nat)
    requires i < |events|
    requires
      || (!events[i].data.Dict? && events[i].kind in {JobStarted, JobFinished, JobRecovered})
      || (events[i].kind == JobStarted && Field(events[i], "task", Text("")).Null?)
      || (events[i].kind == JobStarted && Field(events[i], "task", Text("")).OtherValue?)
    ensures ReplayBreaks(events)
  {
    assert BreaksReplay(EntriesFrom(events[..i]), events[i]);
  }

  // ... and on a finished job that is looked for among started jobs with a list as a task, unless an
  // earlier job matches: one of the same id, or whose task begins with the id.
  lemma ListAsTaskBreaks(id: string, other: string, items: string, status: Value)
    requires id != other
    ensures var started := Event(JobStarted, Dict(map["job_id" := Text(id), "task" := ListOf(items)]), 0.0);
      && ReplayBreaks([started, Event(JobFinished, Dict(map["job_id" := Text(other), "status" := status]), 1.0)])
      && !ReplayBreaks([started, Event(JobFinished, Dict(map["job_id" := Text(id), "status" := status]), 1.0)])
  {
    var started := Event(JobStarted, Dict(map["job_id" := Text(id), "task" := ListOf(items)]), 0.0);
    var a := Event(JobFinished, Dict(map["job_id" := Text(other), "status" := status]), 1.0);
    var b := Event(JobFinished, Dict(map["job_id" := Text(id), "status" := status]), 1.0);
    StartedEntry(started, a, id, items);
    StartedEntry(started, b, id, items);
    assert [started, a][1] == a && BreaksReplay(EntriesFrom([started, a][..1]), [started, a][1]);
    forall i | 0 <= i < 2 ensures !BreaksReplay(EntriesFrom([started, b][..i]), [started, b][i]) {}
  }

  lemma StartedEntry(started: Event, e: Event, id: string, items: string)
    requires started == Event(JobStarted, Dict(map["job_id" := Text(id), "task" := ListOf(items)]), 0.0)
    ensures EntriesFrom([started, e][..1]) == [JobEntry(Text(id), ListOf(items))]
    ensures EntriesFrom([started, e][..0]) == []
  {
    assert [started, e][..1] == [started] && [started][..0] == [] && [started, e][..0] == [];
  }

  // A finished job without an id is looked for as "None".
  lemma MatchedAsNone(items: string)
    ensures var started := Event(JobStarted, Dict(map["task" := Text("None of it")]), 0.0);
      var listed := Event(JobStarted, Dict(map["task" := ListOf(items)]), 0.0);
      !ReplayBreaks([started, listed, Event(JobFinished, Dict(map[]), 1.0)])
  {
    var started := Event(JobStarted, Dict(map["task" := Text("None of it")]), 0.0);
    var listed := Event(JobStarted, Dict(map["task" := ListOf(items)]), 0.0);
    var all := [started, listed, Event(JobFinished, Dict(map[]), 1.0)];
    assert all[..2] == [started, listed] && all[..2][..1] == [started] && all[..1] == [started];
    assert [started][..0] == [] && all[..0] == [];
    var first := JobEntry(Text("unknown"), Text("None of it"));
    assert EntriesFrom([started]) == [first];
    assert EntriesFrom(all[..2]) == [first, JobEntry(Text("unknown"), ListOf(items))];
    forall i | 0 <= i < 3 ensures !BreaksReplay(EntriesFrom(all[..i]), all[i]) {}
  }

  lemma MatchedByTask(task: string, id: string)
    requires id <= task && |task| <= 80 && id != "known"
    ensures var started := Event(JobStarted, Dict(map["job_id" := Text("known"), "task" := Text(task)]), 0.0);
      var listed := Event(JobStarted, Dict(map["job_id" := Text("known"), "task" := ListOf("[]")]), 0.0);
      !ReplayBreaks([started, listed, Event(JobFinished, Dict(map["job_id" := Text(id)]), 1.0)])
  {
    var started := Event(JobStarted, Dict(map["job_id" := Text("known"), "task" := Text(task)]), 0.0);
    var listed := Event(JobStarted, Dict(map["job_id" := Text("known"), "task" := ListOf("[]")]), 0.0);
    var all := [started, listed, Event(JobFinished, Dict(map["job_id" := Text(id)]), 1.0)];
    assert all[..2] == [started, listed] && all[..2][..1] == [started] && all[..1] == [started];
    assert [started][..0] == [] && all[..0] == [];
    assert EntriesFrom([started]) == [JobEntry(Text("known"), Text(task))];
    assert EntriesFrom(all[..2]) == [JobEntry(Text("known"), Text(task)), JobEntry(Text("known"), ListOf("[]"))];
    forall i | 0 <= i < 3 ensures !BreaksReplay(EntriesFrom(all[..i]), all[i]) {}
  }
}
