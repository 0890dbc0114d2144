// engine/jobs.py: the append-only job log, the pipeline that writes it, and recovery after a crash.

module JobStores {
  import opened Basics
  import opened Sequences
  import opened LineLogs

  type JobId = string

  const LOAD_LIMIT: nat := 2000

  datatype Status = Pending | Running | Completed | Failed | Crashed {
    predicate Unfinished() {
      this == Pending || this == Running
    }
  }

  datatype Record = JobRecord(id: JobId, status: Status) | UpdateRecord(id: JobId, status: Status)

  type JobLog = Log<Record>

  // The log after a crash while r was being appended.
  ghost predicate CutShort(log: JobLog, r: Record, after: JobLog) {
    exists cut: Cut :: after == CutOff(log, r, cut)
  }

  // ---------- What find_incomplete computes ----------

  function JobsOf(records: seq<Record>): seq<Record> {
    if records == [] then []
    else JobsOf(records[..|records| - 1]) + if records[|records| - 1].JobRecord? then [records[|records| - 1]] else []
  }

  function UpdatesOf(records: seq<Record>): seq<Record> {
    if records == [] then []
    else
      var front, last := records[..|records| - 1], records[|records| - 1];
      UpdatesOf(front) + if last.UpdateRecord? then [last] else []
  }

  // records[-limit:], which is everything when the limit is zero.
  function Recent(records: seq<Record>, limit: nat): seq<Record> {
    if limit == 0 || |records| <= limit then records else records[|records| - limit..]
  }

  // The status in the last record of the job.
  function Last(records: seq<Record>, id: JobId): Option<Status> {
    if records == [] then None
    else if records[|records| - 1].id == id then Some(records[|records| - 1].status)
    else Last(records[..|records| - 1], id)
  }

  // The last update of the job, wherever it is, or else its record among the last ones.
  ghost function Latest(records: seq<Record>, limit: nat, id: JobId): Option<Status> {
    var update := Last(UpdatesOf(records), id);
    if update.Some? then update else Last(Recent(JobsOf(records), limit), id)
  }

  ghost predicate Incomplete(records: seq<Record>, limit: nat, id: JobId) {
    var latest := Latest(records, limit, id);
    latest.Some? && latest.value.Unfinished()
  }

  // ---------- Which jobs are reported ----------

  ghost predicate Mentions(records: seq<Record>, id: JobId) {
    Last(records, id).Some?
  }

  // A job is recorded before it is updated, and only once.
  ghost predicate WellFormed(records: seq<Record>) {
    records == [] ||
    (WellFormed(records[..|records| - 1]) &&
     (records[|records| - 1].JobRecord? ==> !Mentions(records[..|records| - 1], records[|records| - 1].id)))
  }

  lemma LastAppend(records: seq<Record>, r: Record, id: JobId)
    ensures Last(records + [r], id) == if r.id == id then Some(r.status) else Last(records, id)
    ensures JobsOf(records + [r]) == if r.JobRecord? then JobsOf(records) + [r] else JobsOf(records)
    ensures UpdatesOf(records + [r]) == if r.UpdateRecord? then UpdatesOf(records) + [r] else UpdatesOf(records)
    ensures WellFormed(records + [r]) <==> WellFormed(records) && (r.JobRecord? ==> !Mentions(records, r.id))
  {
    assert (records + [r])[..|records|] == records;
  }

  // The last record of a job is its last update, if it has one.
  lemma {:induction false} LastIsUpdate(records: seq<Record>, id: JobId)
    requires WellFormed(records)
    ensures Last(records, id) ==
      if Last(UpdatesOf(records), id).Some? then Last(UpdatesOf(records), id) else Last(JobsOf(records), id)
  {
    if records != [] {
      var front, r := records[..|records| - 1], records[|records| - 1];
      LastIsUpdate(front, id);
      assert records == front + [r];
      LastAppend(front, r, id);
      if r.JobRecord? { LastAppend(JobsOf(front), r, id); } else { LastAppend(UpdatesOf(front), r, id); }
    }
  }

  lemma {:induction false} LastOfSuffix(records: seq<Record>, k: nat, id: JobId)
    requires k <= |records|
    ensures Mentions(records[k..], id) ==> Last(records[k..], id) == Last(records, id)
    decreases |records|
  {
    if k < |records| {
      LastOfSuffix(records[..|records| - 1], k, id);
      assert records[k..][..|records| - 1 - k] == records[..|records| - 1][k..];
    }
  }

  // Reported are the jobs whose last logged status is pending or running, except those that have no
  // update and are not among the last job records.
  lemma ReportedIff(records: seq<Record>, limit: nat, id: JobId)
    requires WellFormed(records)
    ensures Incomplete(records, limit, id) <==>
      && Last(records, id) in {Some(Pending), Some(Running)}
      && (Mentions(UpdatesOf(records), id) || Mentions(Recent(JobsOf(records), limit), id))
  {
    LastIsUpdate(records, id);
    hide Last, JobsOf, UpdatesOf, WellFormed;
    LastOfRecent(JobsOf(records), limit, id);
  }

  lemma LastOfRecent(records: seq<Record>, limit: nat, id: JobId)
    ensures Mentions(Recent(records, limit), id) ==> Last(Recent(records, limit), id) == Last(records, id)
  {
    if |records| > limit { LastOfSuffix(records, |records| - limit, id); }
  }

  // With no more job records than are loaded, these are all of them.
  lemma ReportedExactly(records: seq<Record>, limit: nat, id: JobId)
    requires WellFormed(records) && |JobsOf(records)| <= limit
    ensures Incomplete(records, limit, id) <==> Last(records, id) in {Some(Pending), Some(Running)}
  {
    ReportedIff(records, limit, id);
    LastIsUpdate(records, id);
  }

  // ---------- Recovering twice ----------

  function MarkAll(log: JobLog, ids: seq<JobId>): JobLog {
    if ids == [] then log else Append(MarkAll(log, ids[..|ids| - 1]), UpdateRecord(ids[|ids| - 1], Crashed))
  }

  lemma {:induction false} MarkedLatest(lines: seq<Record>, ids: seq<JobId>, limit: nat, id: JobId)
    ensures MarkAll(Log(lines, Ended), ids).tail == Ended
    ensures Latest(MarkAll(Log(lines, Ended), ids).lines, limit, id) ==
      if id in ids then Some(Crashed) else Latest(lines, limit, id)
  {
    hide Last, JobsOf, UpdatesOf, Recent;
    if ids != [] {
      var front, last := ids[..|ids| - 1], ids[|ids| - 1];
      MarkedLatest(lines, front, limit, id);
      var before := MarkAll(Log(lines, Ended), front).lines;
      var mark := UpdateRecord(last, Crashed);
      LastAppend(before, mark, id);
      LastAppend(UpdatesOf(before), mark, id);
      assert ids == front + [last];
    }
  }

  // The first mark ends an unended line, and is lost with it.
  lemma {:induction false} FirstMarkLost(log: JobLog, ids: seq<JobId>)
    requires log.tail != Ended && ids != []
    ensures MarkAll(log, ids) == MarkAll(Log(log.lines, Ended), ids[1..])
  {
    var front := ids[..|ids| - 1];
    if front == [] {
      assert MarkAll(log, front) == log;
    } else {
      FirstMarkLost(log, front);
      assert ids[1..][..|ids| - 2] == front[1..];
    }
  }

  ghost predicate IsReport(log: JobLog, limit: nat, ids: seq<JobId>) {
    NoDup(ids) && forall id {:trigger Incomplete(Readable(log), limit, id)} :: id in ids <==>
      Incomplete(Readable(log), limit, id)
  }

  // What a second recovery reports: nothing, unless the log ended in an unended line and the first
  // recovery reported something; then it reports what is incomplete without that line and was not
  // reported, or was reported first.
  lemma RecoverAgainIff(log: JobLog, limit: nat, first: seq<JobId>, id: JobId)
    requires IsReport(log, limit, first)
    ensures Incomplete(Readable(MarkAll(log, first)), limit, id) <==>
      log.tail != Ended && first != [] && Incomplete(log.lines, limit, id) && id !in first[1..]
  {
    if log.tail == Ended {
      MarkedLatest(log.lines, first, limit, id);
    } else if first != [] {
      FirstMarkLost(log, first);
      MarkedLatest(log.lines, first[1..], limit, id);
    }
    assert id in first <==> Incomplete(Readable(log), limit, id);
  }

  // After a clean end the second recovery reports nothing, however many records there are; after a
  // torn line it reports the first job again.
  lemma RecoverTwice(log: JobLog, limit: nat, first: seq<JobId>, second: seq<JobId>)
    requires IsReport(log, limit, first) && IsReport(MarkAll(log, first), limit, second)
    ensures log.tail == Ended ==> second == []
    ensures log.tail == Torn ==> second == if first == [] then [] else [first[0]]
  {
    forall id ensures id in second <==>
        log.tail != Ended && first != [] && Incomplete(log.lines, limit, id) && id !in first[1..]
    {
      RecoverAgainIff(log, limit, first, id);
      assert id in second <==> Incomplete(Readable(MarkAll(log, first)), limit, id);
    }
    if second != [] { assert second[0] in second; }
    if log.tail == Torn && first != [] {
      NoDupTail(first);
      assert first == [first[0]] + first[1..];
      assert forall id :: id in first ==> Incomplete(Readable(log), limit, id);
      assert forall id :: id in second <==> id == first[0];
      OnlyElement(second, first[0]);
    }
  }

  // A third recovery never reports anything.
  lemma ThirdReportsNothing(log: JobLog, limit: nat, first: seq<JobId>, second: seq<JobId>, third: seq<JobId>)
    requires IsReport(log, limit, first) && IsReport(MarkAll(log, first), limit, second)
    requires IsReport(MarkAll(MarkAll(log, first), second), limit, third)
    ensures third == []
  {
    if first == [] {
      SameReport(log, limit, first, second);
      SameReport(log, limit, first, third);
    } else {
      RecoverTwice(MarkAll(log, first), limit, second, third);
    }
  }

  lemma SomeElement(ids: seq<JobId>)
    requires ids != []
    ensures exists id :: id in ids
  {
    assert ids[0] in ids;
  }

  lemma SameReport(log: JobLog, limit: nat, first: seq<JobId>, second: seq<JobId>)
    requires IsReport(log, limit, first) && IsReport(log, limit, second) && first == []
    ensures second == []
  {
    forall id ensures id !in second { assert id in first <==> Incomplete(Readable(log), limit, id); }
    if second != [] { SomeElement(second); }
  }

  // ---------- Every log that the pipelines can leave behind ----------

  // One record written, or cut short by a crash that leaves the log as given.
  datatype Op = Write(r: Record) | Crash(r: Record, after: JobLog)

  // The log, and the job ids handed out so far.
  datatype World = World(log: JobLog, ids: set<JobId>)

  // Job ids are fresh; only jobs that exist are updated.
  ghost predicate Allowed(w: World, op: Op) {
    && (op.r.JobRecord? <==> op.r.id !in w.ids)
    && (op.Crash? ==> CutShort(w.log, op.r, op.after))
  }

  function Next(w: World, op: Op): World {
    World(if op.Crash? then op.after else Append(w.log, op.r), w.ids + {op.r.id})
  }

  ghost predicate LegalRun(w: World, ops: seq<Op>)
    decreases |ops|
  {
    ops == [] || (Allowed(w, ops[0]) && LegalRun(Next(w, ops[0]), ops[1..]))
  }

  ghost function Run(w: World, ops: seq<Op>): World
    decreases |ops|
  {
    if ops == [] then w else Run(Next(w, ops[0]), ops[1..])
  }

  // The records are well-formed and mention no job but those in ids.
  ghost predicate SoundRecords(records: seq<Record>, ids: set<JobId>) {
    WellFormed(records) && forall id {:trigger Mentions(records, id)} :: Mentions(records, id) ==> id in ids
  }

  ghost predicate Sound(w: World) {
    SoundRecords(w.log.lines, w.ids) && SoundRecords(Readable(w.log), w.ids)
  }

  lemma AppendSound(records: seq<Record>, r: Record, ids: set<JobId>)
    requires SoundRecords(records, ids)
    ensures SoundRecords(records, ids + {r.id})
    ensures (r.JobRecord? ==> r.id !in ids) ==> SoundRecords(records + [r], ids + {r.id})
  {
    LastAppend(records, r, r.id);
    forall id | Mentions(records + [r], id) ensures id in ids + {r.id} {
      LastAppend(records, r, id);
      assert id != r.id ==> Mentions(records, id);
    }
  }

  lemma StepSound(w: World, op: Op)
    requires Sound(w) && Allowed(w, op)
    ensures Sound(Next(w, op))
  {
    hide SoundRecords;
    AppendSound(w.log.lines, op.r, w.ids);
    AppendSound(Readable(w.log), op.r, w.ids);
  }

  lemma {:induction false} RunSound(w: World, ops: seq<Op>)
    requires Sound(w) && LegalRun(w, ops)
    ensures Sound(Run(w, ops))
    decreases |ops|
  {
    if ops != [] {
      StepSound(w, ops[0]);
      RunSound(Next(w, ops[0]), ops[1..]);
    }
  }

  // For every interleaving of submissions, executions and recoveries and every crash point, recover
  // reports exactly the jobs whose last logged status is pending or running, apart from jobs without
  // an update that are older than the job records loaded.
  lemma RecoverIsExact(ops: seq<Op>, limit: nat, report: seq<JobId>)
    requires LegalRun(World(Log([], Ended), {}), ops)
    requires IsReport(Run(World(Log([], Ended), {}), ops).log, limit, report)
    ensures var records := Readable(Run(World(Log([], Ended), {}), ops).log);
      forall id :: id in report <==>
        && Last(records, id) in {Some(Pending), Some(Running)}
        && (|JobsOf(records)| <= limit || Mentions(UpdatesOf(records), id) ||
            Mentions(Recent(JobsOf(records), limit), id))
  {
    var start := World(Log([], Ended), {});
    RunSound(start, ops);
    var log := Run(start, ops).log;
    var records := Readable(log);
    forall id ensures id in report <==>
        && Last(records, id) in {Some(Pending), Some(Running)}
        && (|JobsOf(records)| <= limit || Mentions(UpdatesOf(records), id) ||
            Mentions(Recent(JobsOf(records), limit), id))
    {
      assert id in report <==> Incomplete(records, limit, id);
      ReportedIff(records, limit, id);
      if |JobsOf(records)| <= limit { ReportedExactly(records, limit, id); }
    }
  }

  // ---------- Inputs on which recovery falls short ----------

  lemma OnlyPending(id: JobId, limit: nat, x: JobId)
    requires limit > 0
    ensures Incomplete([JobRecord(id, Pending)], limit, x) <==> x == id
  {
    var r := JobRecord(id, Pending);
    LastAppend([], r, x);
    assert [] + [r] == [r];
    assert JobsOf([]) == [] && UpdatesOf([]) == [] && Last([], x) == None;
  }

  // A job whose first update is cut short is reported, and reported again: the mark of the first
  // recovery is lost with the torn line.
  lemma TornThenRecovered(id: JobId, limit: nat)
    requires limit > 0
    ensures var log := Log([JobRecord(id, Pending)], Torn);
      var ops := [Write(JobRecord(id, Pending)), Crash(UpdateRecord(id, Running), log)];
      && LegalRun(World(Log([], Ended), {}), ops) && Run(World(Log([], Ended), {}), ops).log == log
      && IsReport(log, limit, [id]) && IsReport(MarkAll(log, [id]), limit, [id])
  {
    var start, log := World(Log([], Ended), {}), Log([JobRecord(id, Pending)], Torn);
    var a, b := Write(JobRecord(id, Pending)), Crash(UpdateRecord(id, Running), log);
    var w1 := Next(start, a);
    assert w1 == World(Log([JobRecord(id, Pending)], Ended), {id});
    assert [a, b][1..] == [b] && [b][1..] == [];
    assert log == CutOff(w1.log, b.r, Part);
    assert LegalRun(Next(w1, b), []) && Run(Next(w1, b), []) == Next(w1, b);
    assert LegalRun(w1, [b]) && Run(w1, [b]) == Next(w1, b);
    assert [id][..0] == [];
    assert MarkAll(log, []) == log;
    assert MarkAll(log, [id]) == Log(log.lines, Ended);
    forall x ensures Incomplete(Readable(log), limit, x) <==> x in [id] { OnlyPending(id, limit, x); }
  }

  // A job is started and the engine crashes before its end is logged: it is reported.
  lemma StartedThenCrashed(id: JobId, limit: nat)
    ensures var records := [JobRecord(id, Pending), UpdateRecord(id, Running)];
      var ops := [Write(records[0]), Write(records[1])];
      && LegalRun(World(Log([], Ended), {}), ops) && Run(World(Log([], Ended), {}), ops).log == Log(records, Ended)
      && IsReport(Log(records, Ended), limit, [id])
  {
    var start, r, u := World(Log([], Ended), {}), JobRecord(id, Pending), UpdateRecord(id, Running);
    var log := Log([r, u], Ended);
    forall x ensures Incomplete(Readable(log), limit, x) <==> x in [id] { OnlyRunning(id, limit, x); }
    assert [id][..0] == [];
    assert NoDup([id]);
    assert forall x {:trigger Incomplete(Readable(log), limit, x)} ::
      x in [id] <==> Incomplete(Readable(log), limit, x);
    assert IsReport(log, limit, [id]);
    hide Incomplete, CutShort;
    assert LegalRun(start, []) && Run(start, []) == start;
    RunAppend(start, [], Write(r));
    assert [] + [Write(r)] == [Write(r)] && [] + [r] == [r];
    RunAppend(start, [Write(r)], Write(u));
    assert [Write(r)] + [Write(u)] == [Write(r), Write(u)] && [r] + [u] == [r, u];
    assert LegalRun(start, [Write(r), Write(u)]);
    assert Run(start, [Write(r), Write(u)]).log == Log([r, u], Ended);
  }

  lemma OnlyRunning(id: JobId, limit: nat, x: JobId)
    ensures Incomplete([JobRecord(id, Pending), UpdateRecord(id, Running)], limit, x) <==> x == id
  {
    var r, u := JobRecord(id, Pending), UpdateRecord(id, Running);
    assert [r] + [u] == [r, u] && [] + [r] == [r] && [] + [u] == [u];
    LastAppend([], r, x);
    LastAppend([r], u, x);
    LastAppend([], u, x);
    assert JobsOf([]) == [] && UpdatesOf([]) == [] && Last([], x) == None;
  }

  // A whole record whose line break is missing is read: its job is reported.
  lemma UnendedIsReported(id: JobId, limit: nat)
    requires limit > 0
    ensures IsReport(Log([], Unended(JobRecord(id, Pending))), limit, [id])
  {
    assert [] + [JobRecord(id, Pending)] == [JobRecord(id, Pending)] && [id][..0] == [];
    forall x ensures Incomplete([JobRecord(id, Pending)], limit, x) <==> x in [id] { OnlyPending(id, limit, x); }
  }

  // A pending job followed by as many others as are loaded.
  lemma {:induction false} PushedOut(id: JobId, others: seq<Record>, limit: nat)
    requires WellFormed([JobRecord(id, Pending)] + others) && |others| >= limit > 0
    requires forall i :: 0 <= i < |others| ==> others[i].JobRecord?
    ensures var records := [JobRecord(id, Pending)] + others;
      Last(records, id) == Some(Pending) && !Incomplete(records, limit, id)
  {
    var records := [JobRecord(id, Pending)] + others;
    NotMentionedAgain(id, others);
    OnlyJobs(records);
    assert Recent(records, limit) == others[|others| - limit..];
    assert !Mentions(UpdatesOf(records), id);
    hide Last, WellFormed, Incomplete, Recent;
    NotInSuffix(others, |others| - limit, id);
    ReportedIff(records, limit, id);
  }

  lemma {:induction false} NotMentionedAgain(id: JobId, others: seq<Record>)
    requires WellFormed([JobRecord(id, Pending)] + others) && forall i :: 0 <= i < |others| ==> others[i].JobRecord?
    ensures Last([JobRecord(id, Pending)] + others, id) == Some(Pending) && !Mentions(others, id)
  {
    var first := JobRecord(id, Pending);
    if others == [] {
      assert [first] + others == [first] && [first][..0] == [];
    } else {
      var front, r := others[..|others| - 1], others[|others| - 1];
      assert [first] + others == [first] + front + [r] && others == front + [r];
      LastAppend([first] + front, r, id);
      LastAppend(front, r, id);
      NotMentionedAgain(id, front);
    }
  }

  lemma {:induction false} OnlyJobs(records: seq<Record>)
    requires forall i :: 0 <= i < |records| ==> records[i].JobRecord?
    ensures JobsOf(records) == records && UpdatesOf(records) == []
  {
    if records != [] {
      OnlyJobs(records[..|records| - 1]);
      assert records == records[..|records| - 1] + [records[|records| - 1]];
    }
  }

  lemma NotInSuffix(records: seq<Record>, k: nat, id: JobId)
    requires k <= |records| && !Mentions(records, id)
    ensures !Mentions(records[k..], id)
  {
    LastOfSuffix(records, k, id);
  }

  // A job, and n more submitted after it.
  function Submissions(id: JobId, n: nat): (r: seq<Record>)
    ensures |r| == n + 1 && r[0] == JobRecord(id, Pending) && forall i :: 0 <= i <= n ==> r[i].JobRecord?
  {
    if n == 0 then [JobRecord(id, Pending)]
    else Submissions(id, n - 1) + [JobRecord(id + Marks(n), Pending)]
  }

  function Marks(n: nat): (r: string)
    ensures |r| == n
  {
    seq(n, _ => 'x')
  }

  function Writes(records: seq<Record>): (r: seq<Op>)
    ensures |r| == |records| && forall i :: 0 <= i < |r| ==> r[i] == Write(records[i])
  {
    seq(|records|, i requires 0 <= i < |records| => Write(records[i]))
  }

  lemma {:induction false} RunAppend(w: World, ops: seq<Op>, op: Op)
    requires LegalRun(w, ops) && Allowed(Run(w, ops), op)
    ensures LegalRun(w, ops + [op]) && Run(w, ops + [op]) == Next(Run(w, ops), op)
    decreases |ops|
  {
    var all := ops + [op];
    if ops == [] {
      assert all[1..] == [];
      assert LegalRun(Next(w, op), all[1..]) && Run(Next(w, op), all[1..]) == Next(w, op);
    } else {
      assert all[1..] == ops[1..] + [op];
      hide CutShort;
      RunAppend(Next(w, ops[0]), ops[1..], op);
    }
  }

  // They can be submitted in this order.
  lemma {:induction false} SubmissionsRun(id: JobId, n: nat)
    ensures var start, ops := World(Log([], Ended), {}), Writes(Submissions(id, n));
      && LegalRun(start, ops) && Run(start, ops).log == Log(Submissions(id, n), Ended)
      && forall x :: x in Run(start, ops).ids ==> |x| <= |id| + n
  {
    var start := World(Log([], Ended), {});
    if n == 0 {
      NextSubmission(start, [], JobRecord(id, Pending), [], [JobRecord(id, Pending)]);
    } else {
      SubmissionsRun(id, n - 1);
      var before, r := Submissions(id, n - 1), JobRecord(id + Marks(n), Pending);
      var w := Run(start, Writes(before));
      assert r.id !in w.ids;
      NextSubmission(start, Writes(before), r, before, Submissions(id, n));
    }
  }

  lemma NextSubmission(start: World, ops: seq<Op>, r: Record, before: seq<Record>, after: seq<Record>)
    requires LegalRun(start, ops) && ops == Writes(before) && Run(start, ops).log == Log(before, Ended)
    requires r.JobRecord? && r.id !in Run(start, ops).ids && after == before + [r]
    ensures LegalRun(start, Writes(after))
    ensures Run(start, Writes(after)) == World(Log(after, Ended), Run(start, ops).ids + {r.id})
  {
    hide LegalRun, Run;
    RunAppend(start, ops, Write(r));
    assert Writes(after) == ops + [Write(r)];
  }

  // After as many more submissions as are loaded the first job is not reported, though its last status
  // is pending.
  lemma OldJobIsNotReported(id: JobId, limit: nat)
    requires limit > 0
    ensures var start, records := World(Log([], Ended), {}), Submissions(id, limit);
      && LegalRun(start, Writes(records)) && Run(start, Writes(records)).log == Log(records, Ended)
      && Last(records, id) == Some(Pending) && !Incomplete(records, limit, id)
  {
    var start, records := World(Log([], Ended), {}), Submissions(id, limit);
    hide LegalRun, Run, WellFormed, Last, Incomplete, Submissions;
    SubmissionsRun(id, limit);
    StartSound();
    RunSound(start, Writes(records));
    assert WellFormed(records);
    assert records == [JobRecord(id, Pending)] + records[1..];
    PushedOut(id, records[1..], limit);
  }

  lemma StartSound()
    ensures Sound(World(Log([], Ended), {}))
  {
  }

  // ---------- The objects ----------

  class Job {
    const id: JobId
    var status: Status
    var transitions: seq<Status>

    constructor (id: JobId)
      ensures this.id == id && status == Pending && transitions == [Pending]
    {
      this.id, status, transitions := id, Pending, [Pending];
    }

    // The status is set and noted in the list of transitions.
    method Enter(next: Status)
      modifies this
      ensures status == next && transitions == old(transitions) + [next]
    {
      status := next;
      transitions := transitions + [next];
    }
  }

  class JobStore {
    // The log file.
    var lines: seq<Record>
    var tail: Tail<Record>

    constructor ()
      ensures View() == Log([], Ended)
    {
      lines, tail := [], Ended;
    }

    function View(): JobLog
      reads this
    {
      Log(lines, tail)
    }

    // One record is written, as append, update and mark_crashed do.
    method WriteLine(r: Record)
      modifies this
      ensures View() == Append(old(View()), r)
    {
      if tail.Ended? { lines := lines + [r]; }
      tail := Ended;
    }

    // load_all
    method LoadAll(limit: nat) returns (records: seq<Record>)
      ensures records == Recent(JobsOf(Readable(View())), limit)
    {
      var file := Readable(View());
      records := [];
      for i := 0 to |file|
        invariant records == JobsOf(file[..i])
      {
        assert file[..i + 1][..i] == file[..i];
        if file[i].JobRecord? { records := records + [file[i]]; }
      }
      assert file[..|file|] == file;
      if 0 < limit < |records| { records := records[|records| - limit..]; }
    }

    // The last status of each job, in the order in which the jobs first occur.
    static method Collect(records: seq<Record>) returns (order: seq<JobId>, latest: map<JobId, Status>)
      ensures NoDup(order) && forall id :: id in order <==> id in latest
      ensures forall id :: Last(records, id) == if id in latest then Some(latest[id]) else None
    {
      order, latest := [], map[];
      for i := 0 to |records|
        invariant NoDup(order) && forall id :: id in order <==> id in latest
        invariant forall id :: Last(records[..i], id) == if id in latest then Some(latest[id]) else None
      {
        var r := records[i];
        assert records[..i + 1][..i] == records[..i];
        if r.id !in latest {
          NoDupAppend(order, r.id);
          order := order + [r.id];
        }
        latest := latest[r.id := r.status];
      }
      assert records[..|records|] == records;
    }

    // _load_updates
    method LoadUpdates() returns (order: seq<JobId>, updates: map<JobId, Status>)
      ensures NoDup(order) && forall id :: id in order <==> id in updates
      ensures forall id :: Last(UpdatesOf(Readable(View())), id) == if id in updates then Some(updates[id]) else None
    {
      var file := Readable(View());
      var records := [];
      for i := 0 to |file|
        invariant records == UpdatesOf(file[..i])
      {
        assert file[..i + 1][..i] == file[..i];
        if file[i].UpdateRecord? { records := records + [file[i]]; }
      }
      assert file[..|file|] == file;
      order, updates := Collect(records);
    }

    // Updates replace what the job records say.
    static method Overlay(order: seq<JobId>, latest: map<JobId, Status>, updateOrder: seq<JobId>,
                          updates: map<JobId, Status>)
      returns (order': seq<JobId>, latest': map<JobId, Status>)
      requires NoDup(order) && forall id :: id in order <==> id in latest
      requires forall id :: id in updateOrder <==> id in updates
      ensures NoDup(order') && forall id :: id in order' <==> id in latest'
      ensures latest' == latest + updates
    {
      hide NoDup;
      order', latest' := order, latest;
      for i := 0 to |updateOrder|
        invariant NoDup(order') && forall id :: id in order' <==> id in latest'
        invariant latest'.Keys == latest.Keys + Elems(updateOrder[..i])
        invariant forall id :: id in latest' ==>
          latest'[id] == if id in updateOrder[..i] then updates[id] else latest[id]
      {
        var id := updateOrder[i];
        assert id in updates;
        assert updateOrder[..i + 1] == updateOrder[..i] + [id];
        if id !in latest' {
          NoDupAppend(order', id);
          order' := order' + [id];
        }
        latest' := latest'[id := updates[id]];
      }
      assert updateOrder[..|updateOrder|] == updateOrder;
    }

    static method Unfinished(order: seq<JobId>, latest: map<JobId, Status>) returns (ids: seq<JobId>)
      requires NoDup(order) && forall id :: id in order <==> id in latest
      ensures NoDup(ids) && forall id :: id in ids <==> id in latest && latest[id].Unfinished()
    {
      ids := [];
      for i := 0 to |order|
        invariant NoDup(ids) && forall id :: id in ids <==> id in order[..i] && latest[id].Unfinished()
      {
        var id := order[i];
        NoDupAt(order, i);
        assert order[..i + 1] == order[..i] + [id];
        if latest[id].Unfinished() {
          NoDupAppend(ids, id);
          ids := ids + [id];
        }
      }
      assert order[..|order|] == order;
    }

    method FindIncomplete() returns (ids: seq<JobId>)
      ensures IsReport(View(), 2000, ids)
    {
      hide NoDup, Last, JobsOf, UpdatesOf, Recent;
      var records := LoadAll(LOAD_LIMIT);
      var order, latest := Collect(records);
      var updateOrder, updates := LoadUpdates();
      order, latest := Overlay(order, latest, updateOrder, updates);
      ids := Unfinished(order, latest);
    }
  }

  // What the model call does: it answers, answers with an error that may be a stub's, or raises.
  datatype Outcome = Answer | ErrorAnswer(stub: bool) | Raises

  function FinalStatus(outcome: Outcome): Status {
    match outcome
    case Answer => Completed
    case ErrorAnswer(stub) => if stub then Completed else Failed
    case Raises => Failed
  }

  // The status has been overwritten by the time it is reported as the previous one.
  datatype Recovered = Recovered(id: JobId, previousStatus: Status)

  function ReportedIds(recovered: seq<Recovered>): (r: seq<JobId>)
    ensures |r| == |recovered| && forall i :: 0 <= i < |r| ==> r[i] == recovered[i].id
  {
    seq(|recovered|, i requires 0 <= i < |recovered| => recovered[i].id)
  }

  class JobPipeline {
    const store: JobStore
    var jobs: seq<Job>
    var completed: nat

    constructor (store: JobStore)
      ensures this.store == store && jobs == [] && completed == 0
    {
      this.store, jobs, completed := store, [], 0;
    }

    method Submit(id: JobId) returns (job: Job)
      modifies this`jobs, store
      ensures fresh(job) && job.id == id && job.status == Pending && jobs == old(jobs) + [job]
      ensures store.View() == Append(old(store.View()), JobRecord(id, Pending))
    {
      job := new Job(id);
      jobs := jobs + [job];
      store.WriteLine(JobRecord(job.id, job.status));
    }

    method Update(job: Job, next: Status)
      modifies store, job
      ensures job.status == next && job.transitions == old(job.transitions) + [next]
      ensures store.View() == Append(old(store.View()), UpdateRecord(job.id, next))
    {
      job.Enter(next);
      store.WriteLine(UpdateRecord(job.id, job.status));
    }

    // Two updates are logged: that the job runs, and how it ended.
    method Execute(job: Job, outcome: Outcome)
      modifies this`completed, store, job
      ensures job.status == FinalStatus(outcome) &&
        job.transitions == old(job.transitions) + [Running, FinalStatus(outcome)]
      ensures job.status == if outcome in {Answer, ErrorAnswer(true)} then Completed else Failed
      ensures store.View() ==
        Append(Append(old(store.View()), UpdateRecord(job.id, Running)), UpdateRecord(job.id, FinalStatus(outcome)))
      ensures completed == old(completed) + if outcome in {Answer, ErrorAnswer(true)} then 1 else 0
    {
      Update(job, Running);
      match outcome {
        case Answer =>
          completed := completed + 1;
          Update(job, Completed);
        case ErrorAnswer(stub) =>
          if stub { completed := completed + 1; }
          Update(job, if stub then Completed else Failed);
        case Raises =>
          Update(job, Failed);
      }
    }

    // recover: every incomplete job is marked as crashed and reported once.
    method Recover() returns (recovered: seq<Recovered>)
      modifies store
      ensures IsReport(old(store.View()), 2000, ReportedIds(recovered))
      ensures store.View() == MarkAll(old(store.View()), ReportedIds(recovered))
      ensures forall r :: r in recovered ==> r.previousStatus == Crashed
    {
      var ids := store.FindIncomplete();
      recovered := [];
      for i := 0 to |ids|
        invariant ReportedIds(recovered) == ids[..i]
        invariant store.View() == MarkAll(old(store.View()), ids[..i])
        invariant forall r :: r in recovered ==> r.previousStatus == Crashed
      {
        assert ids[..i + 1][..i] == ids[..i];
        store.WriteLine(UpdateRecord(ids[i], Crashed));
        recovered := recovered + [Recovered(ids[i], Crashed)];
        assert ReportedIds(recovered) == ids[..i] + [ids[i]];
      }
      assert ids[..|ids|] == ids;
    }
  }
}
