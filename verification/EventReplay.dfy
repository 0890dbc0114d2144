// engine/events/store.py and engine/events/replay.py: the buffered event log, and the two ways of
// rebuilding a state from it.

module EventReplays {
  import opened Basics
  import opened LineLogs

  // The events that either replay looks at.
  datatype Kind =
    | JobStarted | JobFinished | JobRecovered | CommandExecuted
    | PluginLoaded | PluginUnloaded | ErrorOccurred | Other(name: string)

  // A JSON value; of lists and of other values only what str() shows of them matters.
  datatype Value = Null | Text(text: string) | ListOf(shown: string) | OtherValue(shown: string) {
    // str
    function Show(): string {
      match this
      case Null => "None"
      case Text(t) => t
      case ListOf(t) => t
      case OtherValue(t) => t
    }

    predicate Sliceable() {
      Text? || ListOf?
    }
  }

  // Data that is not a dictionary is stored as its text.
  datatype Data = Dict(fields: map<string, Value>) | NotADict(text: string) {
    function Get(key: string): Value {
      GetOr(key, Null)
    }

    function GetOr(key: string, default: Value): Value {
      if Dict? && key in fields then fields[key] else default
    }
  }

  datatype Event = Event(kind: Kind, data: Data, timestamp: real)

  const BUFFER_LIMIT: nat := 50
  const REPLAY_LIMIT: nat := 50000

  // ---------- Selecting events ----------

  // No time, or time zero, selects everything.
  predicate Selected(e: Event, since: Option<real>) {
    since.Some? && since.value != 0.0 ==> e.timestamp >= since.value
  }

  function Since(events: seq<Event>, since: Option<real>): seq<Event> {
    if events == [] then []
    else
      var front, last := Since(events[..|events| - 1], since), events[|events| - 1];
      if Selected(last, since) then front + [last] else front
  }

  lemma {:induction false} SinceOfFront(events: seq<Event>, k: nat, since: Option<real>)
    requires k <= |events|
    ensures Since(events[..k], since) <= Since(events, since)
    decreases |events|
  {
    if k == |events| {
      assert events[..k] == events;
    } else {
      SinceOfFront(events[..|events| - 1], k, since);
      assert events[..|events| - 1][..k] == events[..k];
    }
  }

  // ---------- replay_reconstruct ----------

  datatype Tally = Tally(completed: nat, failed: nat, plugins: seq<Value>, commands: seq<(Value, Value)>,
                         errors: seq<Value>)

  predicate Finished(e: Event) {
    e.data.Get("status") == Text("completed")
  }

  function Count(t: Tally, e: Event): Tally {
    match e.kind
    case JobFinished => if Finished(e) then t.(completed := t.completed + 1) else t.(failed := t.failed + 1)
    case PluginLoaded => t.(plugins := t.plugins + [e.data.Get("plugin")])
    case PluginUnloaded => t.(plugins := RemoveFirst(t.plugins, e.data.Get("plugin")))
    case CommandExecuted => t.(commands := t.commands + [(e.data.Get("command"), e.data.Get("status"))])
    case ErrorOccurred => t.(errors := t.errors + [e.data.Get("type")])
    case _ => t
  }

  function Tallied(events: seq<Event>): Tally {
    if events == [] then Tally(0, 0, [], [], [])
    else Count(Tallied(events[..|events| - 1]), events[|events| - 1])
  }

  // The events whose data it looks into without checking that it is a dictionary.
  predicate BreaksTally(e: Event) {
    e.data.NotADict? && e.kind in {JobFinished, PluginLoaded, PluginUnloaded, CommandExecuted, ErrorOccurred}
  }

  // ---------- ReplayEngine.replay ----------

  datatype Command = Command(command: Value, status: Value, timestamp: real)

  datatype Built = Built(started: nat, completed: nat, failed: nat, recovered: nat, loaded: seq<Value>,
                         unloaded: seq<Value>, commands: seq<Command>, errors: seq<Value>)

  // The default handlers; what they raise is caught.
  function Handled(b: Built, e: Event): Built {
    var d := e.data;
    match e.kind
    case JobStarted => b.(started := b.started + 1)
    case JobRecovered => b.(recovered := b.recovered + 1)
    case JobFinished =>
      if d.NotADict? then b
      else if Finished(e) then b.(completed := b.completed + 1)
      else b.(failed := b.failed + 1)
    case PluginLoaded => if d.NotADict? then b else b.(loaded := b.loaded + [d.Get("plugin")])
    case PluginUnloaded =>
      if d.NotADict? then b
      else b.(loaded := RemoveFirst(b.loaded, d.Get("plugin")), unloaded := b.unloaded + [d.Get("plugin")])
    case CommandExecuted =>
      if d.NotADict? then b
      else b.(commands := b.commands + [Command(d.Get("command"), d.Get("status"), e.timestamp)])
    case ErrorOccurred => if d.NotADict? then b else b.(errors := b.errors + [d.GetOr("type", Text("unknown"))])
    case Other(_) => b
  }

  function BuiltFrom(events: seq<Event>): Built {
    if events == [] then Built(0, 0, 0, 0, [], [], [], [])
    else Handled(BuiltFrom(events[..|events| - 1]), events[|events| - 1])
  }

  // A job as the job builder lists it.
  datatype JobEntry = JobEntry(jobId: Value, task: Value)

  const TASK_LENGTH: nat := 80

  function Shortened(task: Value): Value {
    if task.Text? then Text(Take(task.text, TASK_LENGTH)) else task
  }

  function NextEntries(jobs: seq<JobEntry>, e: Event): seq<JobEntry> {
    if e.kind == JobStarted then
      jobs + [JobEntry(e.data.GetOr("job_id", Text("unknown")), Shortened(e.data.GetOr("task", Text(""))))]
    else if e.kind == JobRecovered then jobs + [JobEntry(e.data.Get("job_id"), Text(""))]
    else jobs
  }

  function EntriesFrom(events: seq<Event>): seq<JobEntry> {
    if events == [] then [] else NextEntries(EntriesFrom(events[..|events| - 1]), events[|events| - 1])
  }

  // The job that an event finishes is looked for by its id, or by a task that begins with the id. A
  // list has no beginning to ask for.
  predicate SearchRaises(jobs: seq<JobEntry>, id: Value) {
    if jobs == [] || jobs[0].jobId == id then false
    else if !jobs[0].task.Text? then true
    else !(id.Show() <= jobs[0].task.text) && SearchRaises(jobs[1..], id)
  }

  // The builders raise on job events without a dictionary, on a started job whose task cannot be
  // sliced, and on a finished job whose search meets a task that is a list; that is not caught.
  predicate BreaksReplay(jobs: seq<JobEntry>, e: Event) {
    || (e.data.NotADict? && e.kind in {JobStarted, JobFinished, JobRecovered})
    || (e.kind == JobStarted && !e.data.GetOr("task", Text("")).Sliceable())
    || (e.kind == JobFinished && SearchRaises(jobs, e.data.Get("job_id")))
  }

  // ---------- The two agree ----------

  // Every event that either replay looks at carries a dictionary.
  ghost predicate AllDicts(events: seq<Event>) {
    forall i :: 0 <= i < |events| ==> events[i].data.Dict? || events[i].kind.Other?
  }

  function WithoutTimes(commands: seq<Command>): (r: seq<(Value, Value)>)
    ensures |r| == |commands|
    ensures forall i :: 0 <= i < |r| ==> r[i] == (commands[i].command, commands[i].status)
  {
    seq(|commands|, i requires 0 <= i < |commands| => (commands[i].command, commands[i].status))
  }

  // On the same events: the same counts, the same loaded plugins, the same commands but for their times.
  lemma {:induction false} ReplaysAgree(events: seq<Event>)
    requires AllDicts(events)
    ensures var t, b := Tallied(events), BuiltFrom(events);
      && t.completed == b.completed && t.failed == b.failed
      && t.plugins == b.loaded && t.commands == WithoutTimes(b.commands)
  {
    if events != [] {
      var front, e := events[..|events| - 1], events[|events| - 1];
      ReplaysAgree(front);
      assert e.data.Dict? || e.kind.Other?;
      if e.kind == CommandExecuted {
        var before := BuiltFrom(front).commands;
        var command := Command(e.data.Get("command"), e.data.Get("status"), e.timestamp);
        assert WithoutTimes(before + [command]) == WithoutTimes(before) + [(command.command, command.status)];
      }
    }
  }

  // The recorded errors agree exactly when every error event names its type: without one the first
  // replay records nothing and the second "unknown".
  lemma {:induction false} ErrorsAgreeIff(events: seq<Event>)
    requires AllDicts(events)
    ensures |Tallied(events).errors| == |BuiltFrom(events).errors|
    ensures Tallied(events).errors == BuiltFrom(events).errors <==>
      forall i :: 0 <= i < |events| && events[i].kind == ErrorOccurred ==> "type" in events[i].data.fields
  {
    if events != [] {
      var front, e := events[..|events| - 1], events[|events| - 1];
      ErrorsAgreeIff(front);
      assert e.data.Dict? || e.kind.Other?;
      assert forall i :: 0 <= i < |front| ==> front[i] == events[i];
      if e.kind == ErrorOccurred {
        var a, b := Tallied(front).errors, BuiltFrom(front).errors;
        var x := e.data.Get("type");
        var y := e.data.GetOr("type", Text("unknown"));
        AppendSame(a, x, b, y);
        assert x == y <==> "type" in e.data.fields;
      }
    }
  }

  lemma AppendSame<T>(a: seq<T>, x: T, b: seq<T>, y: T)
    requires |a| == |b|
    ensures a + [x] == b + [y] <==> a == b && x == y
  {
    if a + [x] == b + [y] {
      assert (a + [x])[..|a|] == a && (b + [y])[..|b|] == b;
      assert (a + [x])[|a|] == x && (b + [y])[|b|] == y;
    }
  }

  lemma {:induction false} CountsGrow(events: seq<Event>, k: nat)
    requires k <= |events|
    ensures var t, front := Tallied(events), Tallied(events[..k]);
      && front.completed <= t.completed && front.failed <= t.failed
      && (front.completed == t.completed && front.failed == t.failed <==>
            forall i :: k <= i < |events| ==> events[i].kind != JobFinished)
    decreases |events|
  {
    if k == |events| {
      assert events[..k] == events;
    } else {
      var front := events[..|events| - 1];
      CountsGrow(front, k);
      assert front[..k] == events[..k];
      assert forall i :: k <= i < |front| ==> front[i] == events[i];
    }
  }

  // Beyond the limit of the first replay, the counts still agree exactly when no job finished there.
  lemma CountsAgreeIff(events: seq<Event>, limit: nat)
    requires AllDicts(events)
    ensures var t, b := Tallied(Take(events, limit)), BuiltFrom(events);
      t.completed == b.completed && t.failed == b.failed <==>
      forall i :: limit <= i < |events| ==> events[i].kind != JobFinished
  {
    ReplaysAgree(events);
    if |events| > limit { CountsGrow(events, limit); }
  }

  lemma {:induction false} CommandsGrow(events: seq<Event>, k: nat)
    requires k <= |events|
    ensures var t, front := Tallied(events), Tallied(events[..k]);
      && front.commands <= t.commands
      && (|front.commands| == |t.commands| <==> forall i :: k <= i < |events| ==> events[i].kind != CommandExecuted)
    decreases |events|
  {
    if k == |events| {
      assert events[..k] == events;
    } else {
      var front := events[..|events| - 1];
      CommandsGrow(front, k);
      assert front[..k] == events[..k];
      assert forall i :: k <= i < |front| ==> front[i] == events[i];
    }
  }

  // The commands agree exactly when none was executed beyond the limit.
  lemma CommandsAgreeIff(events: seq<Event>, limit: nat)
    requires AllDicts(events)
    ensures Tallied(Take(events, limit)).commands == WithoutTimes(BuiltFrom(events).commands) <==>
      forall i :: limit <= i < |events| ==> events[i].kind != CommandExecuted
  {
    ReplaysAgree(events);
    if |events| > limit { CommandsGrow(events, limit); }
  }

  // For example, an error without a type ...
  lemma ErrorWithoutType()
    ensures var events := [Event(ErrorOccurred, Dict(map[]), 0.0)];
      Tallied(events).errors == [Null] && BuiltFrom(events).errors == [Text("unknown")]
  {
    var e := Event(ErrorOccurred, Dict(map[]), 0.0);
    assert [e][..0] == [];
    assert Tallied([]).errors == [] && BuiltFrom([]).errors == [];
    assert Tallied([e]) == Count(Tallied([]), e) && BuiltFrom([e]) == Handled(BuiltFrom([]), e);
  }

  // ... and, beyond any limit, a job, a command and a plugin that the first replay misses.
  lemma MissedBeyondLimit(before: seq<Event>)
    requires AllDicts(before)
    ensures var finished := Event(JobFinished, Dict(map[]), 0.0);
      Tallied(Take(before + [finished], |before|)).failed + 1 == BuiltFrom(before + [finished]).failed
    ensures var executed := Event(CommandExecuted, Dict(map[]), 0.0);
      |Tallied(Take(before + [executed], |before|)).commands| + 1 == |BuiltFrom(before + [executed]).commands|
    ensures var loaded := Event(PluginLoaded, Dict(map[]), 0.0);
      |Tallied(Take(before + [loaded], |before|)).plugins| + 1 == |BuiltFrom(before + [loaded]).loaded|
  {
    ReplaysAgree(before);
    OneMore(before, Event(JobFinished, Dict(map[]), 0.0));
    OneMore(before, Event(CommandExecuted, Dict(map[]), 0.0));
    OneMore(before, Event(PluginLoaded, Dict(map[]), 0.0));
  }

  lemma OneMore(before: seq<Event>, e: Event)
    ensures Take(before + [e], |before|) == before && BuiltFrom(before + [e]) == Handled(BuiltFrom(before), e)
  {
    assert (before + [e])[..|before|] == before;
  }

  ghost predicate TallyBreaks(events: seq<Event>) {
    exists i :: 0 <= i < |events| && BreaksTally(events[i])
  }

  ghost predicate ReplayBreaks(events: seq<Event>) {
    exists i :: 0 <= i < |events| && BreaksReplay(EntriesFrom(events[..i]), events[i])
  }

  // What the two replays return for a log file, if they do not raise.
  ghost function Reconstructed(file: seq<Event>, since: Option<real>, limit: nat): Option<Tally> {
    var events := Take(Since(file, since), limit);
    if TallyBreaks(events) then None else Some(Tallied(events))
  }

  ghost function Replayed(file: seq<Event>, since: Option<real>): Option<Built> {
    var events := Since(file, since);
    if ReplayBreaks(events) then None else Some(BuiltFrom(events))
  }

  // On a log with no more selected events than the limit, whenever both replays return they agree.
  lemma ReplaysAgreeOnLog(file: seq<Event>, since: Option<real>, limit: nat)
    requires |Since(file, since)| <= limit
    requires Reconstructed(file, since, limit).Some? && Replayed(file, since).Some?
    ensures var t, b := Reconstructed(file, since, limit).value, Replayed(file, since).value;
      && t.completed == b.completed && t.failed == b.failed
      && t.plugins == b.loaded && t.commands == WithoutTimes(b.commands)
  {
    var events := Since(file, since);
    assert Take(events, limit) == events;
    forall i | 0 <= i < |events| ensures events[i].data.Dict? || events[i].kind.Other? {
      assert !BreaksTally(events[i]) && !BreaksReplay(EntriesFrom(events[..i]), events[i]);
    }
    ReplaysAgree(events);
  }

  // ---------- The event store ----------

  // A write succeeds, or breaks off after some whole lines and the given part of the next.
  datatype WriteOutcome = Written | Broken(lines: nat, cut: Cut)

  // The file and the buffer after a flush: on failure the buffer is kept.
  function Flushed(file: Log<Event>, buffer: seq<Event>, outcome: WriteOutcome): (Log<Event>, seq<Event>) {
    match outcome
    case Written => (AppendAll(file, buffer), [])
    case Broken(lines, cut) =>
      var written := AppendAll(file, Take(buffer, lines));
      (if lines < |buffer| then CutOff(written, buffer[lines], cut) else written, buffer)
  }

  // The file ends with a line break, and together with the buffer it is the history.
  ghost predicate Synced(file: Log<Event>, buffer: seq<Event>, history: seq<Event>) {
    file.tail.Ended? && file.lines + buffer == history
  }

  // A flush keeps that exactly when it succeeds, nothing at all was written, or there was nothing to
  // write; otherwise the file ends inside a line, or lines that it has are in the buffer as well.
  lemma FlushKeepsIff(file: Log<Event>, buffer: seq<Event>, outcome: WriteOutcome)
    requires file.tail.Ended?
    ensures var (f, b) := Flushed(file, buffer, outcome);
      Synced(f, b, file.lines + buffer) <==> outcome.Written? || buffer == [] || outcome == Broken(0, Nothing)
  {
    match outcome {
      case Written => AppendAllGives(file, buffer);
      case Broken(lines, cut) =>
        var first := Take(buffer, lines);
        AppendAllGives(file, first);
        if first != [] { assert |file.lines + first + buffer| > |file.lines + buffer|; }
    }
  }

  // When the next flush succeeds, the file holds the history after all exactly when nothing was
  // written, or one whole line and part of the second: then the retry of the first line is lost with
  // the broken one.
  lemma RetryRestoresIff(file: Log<Event>, buffer: seq<Event>, lines: nat, cut: Cut)
    requires file.tail.Ended? && buffer != []
    ensures Readable(AppendAll(Flushed(file, buffer, Broken(lines, cut)).0, buffer)) == file.lines + buffer <==>
      (lines == 0 && cut == Nothing) || (lines == 1 && |buffer| > 1 && cut != Nothing)
  {
    var first, after := Take(buffer, lines), Flushed(file, buffer, Broken(lines, cut)).0;
    var again := if after.tail.Ended? then buffer else buffer[1..];
    RetryGives(file, buffer, lines, cut);
    hide AppendAll, Readable, Flushed, CutOff;
    SameAgain(Readable(AppendAll(after, buffer)), file.lines, first, again, buffer);
    OnceMore(buffer, lines);
    assert after.tail.Ended? || again == buffer[1..];
  }

  // What the file holds after a flush that broke off and one that succeeded.
  lemma RetryGives(file: Log<Event>, buffer: seq<Event>, lines: nat, cut: Cut)
    requires file.tail.Ended? && buffer != []
    ensures var first, after := Take(buffer, lines), Flushed(file, buffer, Broken(lines, cut)).0;
      && (after.tail.Ended? <==> lines >= |buffer| || cut == Nothing)
      && Readable(AppendAll(after, buffer)) == file.lines + first + if after.tail.Ended? then buffer else buffer[1..]
  {
    var first, after := Take(buffer, lines), Flushed(file, buffer, Broken(lines, cut)).0;
    AppendAllGives(file, first);
    AppendAllGives(after, buffer);
    assert file.lines + [] == file.lines;
  }

  lemma OnceMore(buffer: seq<Event>, lines: nat)
    requires buffer != []
    ensures Take(buffer, lines) + buffer == buffer <==> lines == 0
    ensures Take(buffer, lines) + buffer[1..] == buffer <==> lines == 1 || |buffer| == 1 <= lines
  {
    var first := Take(buffer, lines);
    assert |first + buffer| == |first| + |buffer| && |first + buffer[1..]| == |first| + |buffer| - 1;
    if |first| == 1 { assert first + buffer[1..] == buffer; }
    if first == [] { assert first + buffer == buffer; }
  }

  lemma SameAgain(all: seq<Event>, lines: seq<Event>, first: seq<Event>, again: seq<Event>, buffer: seq<Event>)
    requires all == lines + first + again
    ensures all == lines + buffer <==> first + again == buffer
  {
    assert all[|lines|..] == first + again && (lines + buffer)[|lines|..] == buffer;
    assert all == lines + (first + again);
  }

  // For example, one of two lines written before the failure is written twice, and the first line cut
  // in the middle is lost.
  lemma HalfWrittenFlush(e: Event, f: Event)
    ensures Flushed(Log([], Ended), [e, f], Broken(1, Nothing)) == (Log([e], Ended), [e, f])
    ensures Flushed(Log([e], Ended), [e, f], Written) == (Log([e, e, f], Ended), [])
    ensures Flushed(Log([], Ended), [e, f], Broken(0, Part)) == (Log([], Torn), [e, f])
    ensures Flushed(Log([], Torn), [e, f], Written) == (Log([f], Ended), [])
  {
    assert [e, f][..1] == [e] && [e, f][..0] == [] && [e, f][1..] == [f];
    AppendAllGives(Log([], Ended), [e]);
    AppendAllGives(Log([e], Ended), [e, f]);
    AppendAllGives(Log([], Torn), [e, f]);
    var none: seq<Event> := [];
    assert none + [e] == [e] && none + [f] == [f] && [e] + [e, f] == [e, e, f];
  }

  class EventStore {
    var file: Log<Event>
    var buffer: seq<Event>
    var count: nat
    // Every event ever appended.
    ghost var history: seq<Event>

    // Nothing is lost or written twice.
    ghost predicate InSync()
      reads this
    {
      Synced(file, buffer, history)
    }

    constructor ()
      ensures file == Log([], Ended) && buffer == [] && count == 0 && history == [] && InSync()
    {
      file, buffer, count, history := Log([], Ended), [], 0, [];
    }

    method Flush(outcome: WriteOutcome)
      modifies this`file, this`buffer
      ensures (file, buffer) == Flushed(old(file), old(buffer), outcome)
      ensures old(InSync()) ==> (InSync() <==> outcome.Written? || old(buffer) == [] || outcome == Broken(0, Nothing))
    {
      if file.tail.Ended? { FlushKeepsIff(file, buffer, outcome); }
      if buffer == [] { return; }
      match outcome {
        case Written => file, buffer := AppendAll(file, buffer), [];
        case Broken(lines, cut) =>
          file := AppendAll(file, Take(buffer, lines));
          if lines < |buffer| { file := CutOff(file, buffer[lines], cut); }
      }
    }

    // The history grows by the event, however often the buffer has to be written.
    method Append(e: Event, outcome: WriteOutcome) returns (seqNo: nat)
      modifies this
      ensures seqNo == old(count) && count == old(count) + 1
      ensures history == old(history) + [e]
      ensures old(InSync()) && (outcome.Written? || outcome == Broken(0, Nothing)) ==> InSync()
      ensures outcome.Written? ==> |buffer| < 50
      ensures (file, buffer) == if |old(buffer)| + 1 < 50 then (old(file), old(buffer) + [e])
                                else Flushed(old(file), old(buffer) + [e], outcome)
    {
      seqNo := count;
      count := count + 1;
      buffer, history := buffer + [e], history + [e];
      assert file.lines + buffer == old(file.lines + buffer) + [e];
      if |buffer| >= BUFFER_LIMIT { Flush(outcome); }
    }

    // The readable lines of the file that are selected, up to the limit.
    method Query(since: Option<real>, limit: nat, outcome: WriteOutcome) returns (results: seq<Event>)
      requires limit > 0
      modifies this`file, this`buffer
      ensures (file, buffer) == Flushed(old(file), old(buffer), outcome)
      ensures results == Take(Since(Readable(file), since), limit)
    {
      Flush(outcome);
      results := FirstSelected(Readable(file), since, limit);
    }

    static method FirstSelected(lines: seq<Event>, since: Option<real>, limit: nat) returns (results: seq<Event>)
      requires limit > 0
      ensures results == Take(Since(lines, since), limit)
    {
      results := [];
      for i := 0 to |lines|
        invariant results == Since(lines[..i], since) && |results| < limit
      {
        assert lines[..i + 1][..i] == lines[..i];
        if Selected(lines[i], since) {
          results := results + [lines[i]];
          if |results| >= limit {
            SinceOfFront(lines, i + 1, since);
            return;
          }
        }
      }
      assert lines[..|lines|] == lines;
    }

    method ReplayReconstruct(since: Option<real>, outcome: WriteOutcome) returns (state: Option<Tally>)
      modifies this`file, this`buffer
      ensures (file, buffer) == Flushed(old(file), old(buffer), outcome)
      ensures state == Reconstructed(Readable(file), since, 50000)
    {
      var events := Query(since, REPLAY_LIMIT, outcome);
      state := Reconstruct(events);
    }
  }

  method Reconstruct(events: seq<Event>) returns (state: Option<Tally>)
    ensures state == if TallyBreaks(events) then None else Some(Tallied(events))
  {
    var t := Tally(0, 0, [], [], []);
    for i := 0 to |events|
      invariant t == Tallied(events[..i]) && !TallyBreaks(events[..i])
    {
      if BreaksTally(events[i]) { return None; }
      assert events[..i + 1][..i] == events[..i];
      t := Count(t, events[i]);
    }
    assert events[..|events|] == events;
    return Some(t);
  }

  // ---------- The replay engine ----------

  lemma NextEvent(events: seq<Event>, i: nat)
    requires i < |events|
    ensures BuiltFrom(events[..i + 1]) == Handled(BuiltFrom(events[..i]), events[i])
    ensures EntriesFrom(events[..i + 1]) == NextEntries(EntriesFrom(events[..i]), events[i])
  {
    assert events[..i + 1][..i] == events[..i];
  }

  lemma NextBreaks(events: seq<Event>, i: nat)
    requires i < |events|
    ensures ReplayBreaks(events[..i + 1]) <==>
      ReplayBreaks(events[..i]) || BreaksReplay(EntriesFrom(events[..i]), events[i])
    ensures BreaksReplay(EntriesFrom(events[..i]), events[i]) ==> ReplayBreaks(events)
  {
    hide BreaksReplay, EntriesFrom;
    var next := events[..i + 1];
    assert next[..i] == events[..i] && next[i] == events[i];
    if ReplayBreaks(events[..i]) {
      var k :| 0 <= k < i && BreaksReplay(EntriesFrom(events[..i][..k]), events[..i][k]);
      assert events[..i][..k] == next[..k] && events[..i][k] == next[k];
    }
    if ReplayBreaks(next) {
      var k :| 0 <= k < |next| && BreaksReplay(EntriesFrom(next[..k]), next[k]);
      if k < i { assert next[..k] == events[..i][..k] && next[k] == events[..i][k]; }
    }
  }

  class ReplayEngine {
    const store: EventStore
    // The builders' fields.
    var started: nat
    var completed: nat
    var failed: nat
    var recovered: nat
    var loaded: seq<Value>
    var unloaded: seq<Value>
    var commands: seq<Command>
    var errors: seq<Value>
    var jobs: seq<JobEntry>

    constructor (store: EventStore)
      ensures this.store == store
    {
      this.store := store;
    }

    function View(): Built
      reads this
    {
      Built(started, completed, failed, recovered, loaded, unloaded, commands, errors)
    }

    method Reset()
      modifies this
      ensures View() == BuiltFrom([]) && jobs == []
    {
      started, completed, failed, recovered := 0, 0, 0, 0;
      loaded, unloaded, commands, errors, jobs := [], [], [], [], [];
    }

    // The handler of the event, if it has one; a handler that raises changes nothing before.
    method Handle(e: Event)
      modifies this
      ensures View() == Handled(old(View()), e) && jobs == old(jobs)
    {
      match e.kind {
        case JobStarted => started := started + 1;
        case JobRecovered => recovered := recovered + 1;
        case JobFinished =>
          if e.data.Dict? {
            if Finished(e) { completed := completed + 1; } else { failed := failed + 1; }
          }
        case PluginLoaded =>
          if e.data.Dict? { loaded := loaded + [e.data.Get("plugin")]; }
        case PluginUnloaded =>
          if e.data.Dict? {
            var name := e.data.Get("plugin");
            loaded, unloaded := RemoveFirst(loaded, name), unloaded + [name];
          }
        case CommandExecuted =>
          if e.data.Dict? {
            commands := commands + [Command(e.data.Get("command"), e.data.Get("status"), e.timestamp)];
          }
        case ErrorOccurred =>
          if e.data.Dict? {
            errors := errors + [e.data.GetOr("type", Text("unknown"))];
          }
        case Other(_) =>
      }
    }

    // The search for the finished job raises, or ends at the first job that matches.
    method SearchJob(id: Value) returns (raises: bool)
      ensures raises == SearchRaises(jobs, id)
    {
      assert jobs[0..] == jobs;
      for i := 0 to |jobs|
        invariant SearchRaises(jobs[i..], id) == SearchRaises(jobs, id)
      {
        assert jobs[i..][0] == jobs[i] && jobs[i..][1..] == jobs[i + 1..];
        if jobs[i].jobId == id { return false; }
        if !jobs[i].task.Text? { return true; }
        if id.Show() <= jobs[i].task.text { return false; }
      }
      return false;
    }

    // JobStateBuilder.apply; the other builders only count.
    method Apply(e: Event) returns (raises: bool)
      modifies this`jobs
      ensures raises == BreaksReplay(old(jobs), e)
      ensures !raises ==> jobs == NextEntries(old(jobs), e)
    {
      if e.kind !in {JobStarted, JobFinished, JobRecovered} { return false; }
      if e.data.NotADict? { return true; }
      if e.kind == JobFinished {
        raises := SearchJob(e.data.Get("job_id"));
        return raises;
      }
      if e.kind == JobStarted && !e.data.GetOr("task", Text("")).Sliceable() { return true; }
      jobs := NextEntries(jobs, e);
      return false;
    }

    // Reads the file alone: what is still buffered in the store is not replayed.
    method Replay(since: Option<real>) returns (state: Option<Built>)
      modifies this
      ensures state == Replayed(Readable(store.file), since)
    {
      var events := LoadEvents(since);
      Reset();
      for i := 0 to |events|
        invariant View() == BuiltFrom(events[..i]) && jobs == EntriesFrom(events[..i])
        invariant !ReplayBreaks(events[..i])
      {
        NextEvent(events, i);
        NextBreaks(events, i);
        Handle(events[i]);
        var raises := Apply(events[i]);
        if raises { return None; }
      }
      assert events[..|events|] == events;
      return Some(View());
    }

    method LoadEvents(since: Option<real>) returns (events: seq<Event>)
      ensures events == Since(Readable(store.file), since)
    {
      var lines := Readable(store.file);
      events := [];
      for i := 0 to |lines|
        invariant events == Since(lines[..i], since)
      {
        assert lines[..i + 1][..i] == lines[..i];
        if Selected(lines[i], since) { events := events + [lines[i]]; }
      }
      assert lines[..|lines|] == lines;
    }
  }
}
