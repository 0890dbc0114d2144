// core/queue_manager.py: what scheduling from the heap and reloading it mean, on values. The class
// that does it is in QueueManager.dfy.

module JobQueue {
  import opened Basics
  import opened Sequences
  import opened Heap
  import opened Jobs

  type JobId = string
  type Entry = Item<JobId>
  type JobTable = map<JobId, JobView>

  // ---------- Scheduling order ----------

  ghost predicate IsReady(jobs: JobTable, now: real, e: Entry) {
    e.value in jobs && jobs[e.value].Ready(now)
  }

  predicate SameTicket(e: Entry, f: Entry) {
    e.key.ticket == f.key.ticket
  }

  // No two entries carry the same ticket.
  ghost predicate TicketsUnique(entries: multiset<Entry>) {
    && (forall e {:trigger entries[e]} :: e in entries ==> entries[e] == 1)
    && (forall e, f {:trigger SameTicket(e, f)} :: e in entries && f in entries && SameTicket(e, f) ==> e == f)
  }

  // e is the least ready entry.
  ghost predicate IsNext(entries: multiset<Entry>, jobs: JobTable, now: real, e: Entry) {
    && e in entries && IsReady(jobs, now, e)
    && forall f :: f in entries && IsReady(jobs, now, f) && f != e ==> Less(e.key, f.key)
  }

  // While the clock moves from lo to hi: e is ready at the end, and comes before all others that
  // were ready at the start.
  ghost predicate IsNextWithin(entries: multiset<Entry>, jobs: JobTable, lo: real, hi: real, e: Entry) {
    && e in entries && IsReady(jobs, hi, e)
    && forall f :: f in entries && IsReady(jobs, lo, f) && f != e ==> Less(e.key, f.key)
  }

  ghost predicate NoneReady(entries: multiset<Entry>, jobs: JobTable, now: real) {
    forall e :: e in entries ==> !IsReady(jobs, now, e)
  }

  ghost predicate StrictlySorted(d: seq<Entry>) {
    forall i, j :: 0 <= i < j < |d| ==> Less(d[i].key, d[j].key)
  }

  // d is what repeatedly taking the next job at time now yields.
  ghost predicate DrainsTo(entries: multiset<Entry>, jobs: JobTable, now: real, d: seq<Entry>) {
    StrictlySorted(d) && forall e :: e in d <==> e in entries && IsReady(jobs, now, e)
  }

  // d is what it yields while the clock moves from lo to hi: everything that was ready at the start
  // and nothing that is not ready at the end, and no entry comes after one that it should precede,
  // unless it became ready meanwhile.
  ghost predicate DrainsWithin(entries: multiset<Entry>, jobs: JobTable, lo: real, hi: real, d: seq<Entry>) {
    && (forall e :: e in entries && IsReady(jobs, lo, e) ==> e in d)
    && (forall e :: e in d ==> e in entries && IsReady(jobs, hi, e))
    && SortedFrom(d, jobs, lo)
  }

  ghost predicate SortedFrom(d: seq<Entry>, jobs: JobTable, lo: real) {
    forall i, j :: 0 <= i < j < |d| && IsReady(jobs, lo, d[j]) ==> Less(d[i].key, d[j].key)
  }

  // If no queued job becomes ready meanwhile, that is the drain, and the next job, at any one time.
  lemma NoneBecomesReady(entries: multiset<Entry>, jobs: JobTable, lo: real, now: real, hi: real, d: seq<Entry>,
                         e: Entry)
    requires lo <= now <= hi && forall f :: f in entries && IsReady(jobs, hi, f) ==> IsReady(jobs, lo, f)
    ensures DrainsWithin(entries, jobs, lo, hi, d) <==> DrainsTo(entries, jobs, now, d)
    ensures IsNextWithin(entries, jobs, lo, hi, e) <==> IsNext(entries, jobs, now, e)
  {
    assert forall f :: f in entries ==>
      (IsReady(jobs, lo, f) <==> IsReady(jobs, now, f)) && (IsReady(jobs, hi, f) <==> IsReady(jobs, now, f));
    if DrainsWithin(entries, jobs, lo, hi, d) {
      forall i, j | 0 <= i < j < |d| ensures Less(d[i].key, d[j].key) { assert d[j] in d; }
    }
  }

  // ---------- In terms of the jobs ----------

  // The job is queued, and its time has come.
  ghost predicate Due(jobs: JobTable, id: JobId, now: real) {
    && id in jobs && jobs[id].status == Queued
    && (jobs[id].scheduleAt.Some? ==> jobs[id].scheduleAt.value <= now)
  }

  // e has the lesser priority number, or else the earlier creation time, or else the earlier ticket.
  ghost predicate Earlier(e: Entry, f: Entry) {
    && e.key.priority <= f.key.priority
    && (e.key.priority == f.key.priority ==> e.key.createdAt <= f.key.createdAt)
    && (e.key.priority == f.key.priority && e.key.createdAt == f.key.createdAt ==> e.key.ticket < f.key.ticket)
  }

  // The next job is due in the end and earlier than all others that were due in the beginning.
  lemma NextIsEarliest(entries: multiset<Entry>, jobs: JobTable, lo: real, hi: real, e: Entry, f: Entry)
    requires IsNextWithin(entries, jobs, lo, hi, e)
    ensures e in entries && Due(jobs, e.value, hi)
    ensures f in entries && f != e && Due(jobs, f.value, lo) ==> Earlier(e, f)
  {
  }

  // Nothing is next only if no queued job was due.
  lemma NoneReadyIff(entries: multiset<Entry>, jobs: JobTable, now: real)
    ensures NoneReady(entries, jobs, now) <==> forall e :: e in entries ==> !Due(jobs, e.value, now)
  {
    forall e: Entry ensures IsReady(jobs, now, e) <==> Due(jobs, e.value, now) {}
  }

  // A drain lists all that were due in the beginning, and only what is due in the end, each after all
  // that are earlier.
  lemma DrainIsInOrder(entries: multiset<Entry>, jobs: JobTable, lo: real, hi: real, d: seq<Entry>)
    requires DrainsWithin(entries, jobs, lo, hi, d)
    ensures forall e :: e in entries && Due(jobs, e.value, lo) ==> e in d
    ensures forall e :: e in d ==> e in entries && Due(jobs, e.value, hi)
    ensures forall i, j :: 0 <= i < j < |d| && Due(jobs, d[j].value, lo) ==> Earlier(d[i], d[j])
  {
    forall e: Entry, now: real ensures IsReady(jobs, now, e) <==> Due(jobs, e.value, now) {}
  }

  // For example, an urgent job comes before one in the background that was submitted earlier.
  lemma UrgentComesFirst(urgent: JobId, background: JobId, now: real)
    requires urgent != background
    ensures var jobs := map[urgent := JobView(0, None, 2.0, Queued), background := JobView(3, None, 1.0, Queued)];
      var first, second := Item(Key(0, 2.0, 2), urgent), Item(Key(3, 1.0, 1), background);
      DrainsTo(multiset{first, second}, jobs, now, [first, second])
  {
  }

  // ---------- Saving and loading ----------

  datatype Record = Record(id: JobId, priority: string, scheduleAt: Option<real>, createdAt: real, status: JobState)

  datatype Saved = Saved(counter: nat, records: seq<Record>)

  // The queue file. It may be missing, hold no JSON object, or hold entries that no job can be rebuilt from.
  datatype QueueFile = Missing | Garbled | Holds(counter: nat, records: seq<Option<Record>>)

  function Written(saved: Saved): QueueFile {
    Holds(saved.counter, seq(|saved.records|, i requires 0 <= i < |saved.records| => Some(saved.records[i])))
  }

  // The records before the first that cannot be rebuilt.
  function Sound(records: seq<Option<Record>>): (r: seq<Record>)
    ensures |r| <= |records| && (forall i :: 0 <= i < |r| ==> records[i] == Some(r[i]))
    ensures |r| < |records| ==> records[|r|] == None
  {
    if records == [] || records[0].None? then [] else [records[0].value] + Sound(records[1..])
  }

  // What is loaded of a file: loading stops at the first broken record and keeps what came before.
  function Loadable(file: QueueFile): Saved {
    match file
    case Holds(counter, records) => Saved(counter, Sound(records))
    case _ => Saved(0, [])
  }

  lemma WrittenIsLoadable(saved: Saved)
    ensures Loadable(Written(saved)) == saved
  {
    assert Sound(Written(saved).records) == saved.records;
  }

  function ToRecord(id: JobId, v: JobView): Record {
    Record(id, PriorityToString(v.priority), v.scheduleAt, v.createdAt, v.status)
  }

  function FromRecord(r: Record): JobView {
    JobView(PriorityFromString(r.priority), r.scheduleAt, r.createdAt, r.status)
  }

  function RecordIds(records: seq<Record>): (r: seq<JobId>)
    ensures |r| == |records| && forall i :: 0 <= i < |records| ==> r[i] == records[i].id
  {
    seq(|records|, i requires 0 <= i < |records| => records[i].id)
  }

  function Records(order: seq<JobId>, jobs: JobTable): (r: seq<Record>)
    requires forall id :: id in order ==> id in jobs
    ensures |r| == |order| && forall i :: 0 <= i < |order| ==> r[i] == ToRecord(order[i], jobs[order[i]])
  {
    seq(|order|, i requires 0 <= i < |order| => ToRecord(order[i], jobs[order[i]]))
  }

  // The entries that loading pushes, with the counter it ends with: queued records get the next tickets.
  ghost function LoadedEntries(records: seq<Record>, counter: nat): (r: (seq<Entry>, nat))
    ensures counter <= r.1
  {
    if records == [] then ([], counter)
    else
      var (front, c) := LoadedEntries(records[..|records| - 1], counter);
      var last := records[|records| - 1];
      if last.status == Queued
      then (front + [Item(Key(PriorityFromString(last.priority), last.createdAt, c + 1), last.id)], c + 1)
      else (front, c)
  }

  ghost function LoadedJobs(records: seq<Record>): JobTable {
    if records == [] then map[]
    else
      var last := records[|records| - 1];
      LoadedJobs(records[..|records| - 1])[last.id := FromRecord(last)]
  }

  lemma LoadedNext(records: seq<Record>, i: nat, counter: nat)
    requires i < |records|
    ensures LoadedJobs(records[..i + 1]) == LoadedJobs(records[..i])[records[i].id := FromRecord(records[i])]
    ensures var (es, c) := LoadedEntries(records[..i], counter);
      var (es', c') := LoadedEntries(records[..i + 1], counter);
      var r := records[i];
      && (r.status != Queued ==> c' == c && es' == es)
      && (r.status == Queued ==> c' == c + 1)
      && (r.status == Queued ==>
            multiset(es') ==
              multiset(es) + multiset{Item(Key(PriorityFromString(r.priority), r.createdAt, c + 1), r.id)})
  {
    assert records[..i + 1][..i] == records[..i];
  }

  // ---------- A drain is determined by what is queued ----------

  lemma {:induction false} SortedUnique(a: seq<Entry>, b: seq<Entry>)
    requires StrictlySorted(a) && StrictlySorted(b) && forall e :: e in a <==> e in b
    ensures a == b
  {
    assert a != [] ==> a[0] in b;
    assert b != [] ==> b[0] in a;
    if a != [] {
      var i :| 0 <= i < |a| && a[i] == b[0];
      var j :| 0 <= j < |b| && b[j] == a[0];
      assert a[0] == b[0];
      forall e ensures e in a[1..] <==> e in b[1..] { TailMembers(a, e); TailMembers(b, e); }
      SortedUnique(a[1..], b[1..]);
    }
  }

  lemma TailMembers(d: seq<Entry>, e: Entry)
    requires StrictlySorted(d) && d != []
    ensures e in d[1..] <==> e in d && e != d[0]
  {
    if e in d && e != d[0] {
      var i :| 0 <= i < |d| && d[i] == e;
      assert d[1..][i - 1] == e;
    }
    if e in d[1..] {
      var i :| 0 <= i < |d[1..]| && d[1..][i] == e;
      assert d[i + 1] == e;
    }
  }

  lemma DrainIsUnique(entries: multiset<Entry>, jobs: JobTable, now: real, a: seq<Entry>, b: seq<Entry>)
    requires DrainsTo(entries, jobs, now, a) && DrainsTo(entries, jobs, now, b)
    ensures a == b
  {
    SortedUnique(a, b);
  }

  // Taking the next entry and draining the rest is draining everything.
  lemma NextThenRest(entries: multiset<Entry>, jobs: JobTable, now: real, e: Entry, rest: seq<Entry>)
    requires TicketsUnique(entries) && IsNext(entries, jobs, now, e)
    requires DrainsTo(entries - multiset{e}, jobs, now, rest)
    ensures DrainsTo(entries, jobs, now, [e] + rest)
  {
    var d := [e] + rest;
    forall i, j | 0 <= i < j < |d| ensures Less(d[i].key, d[j].key) {
      if i == 0 {
        assert rest[j - 1] in rest;
        assert d[j] in entries - multiset{e};
      }
    }
    forall f ensures f in d <==> f in entries && IsReady(jobs, now, f) {
      assert f in d <==> f == e || f in rest;
    }
  }

  // ---------- Two drains of the same jobs ----------

  ghost function Ids(d: seq<Entry>): (r: seq<JobId>)
    ensures |r| == |d| && forall i :: 0 <= i < |d| ==> r[i] == d[i].value
  {
    seq(|d|, i requires 0 <= i < |d| => d[i].value)
  }

  lemma IdsAppend(d: seq<Entry>, e: Entry)
    ensures Ids(d + [e]) == Ids(d) + [e.value]
  {
  }

  predicate Tied(e: Entry, f: Entry) {
    e.key.priority == f.key.priority && e.key.createdAt == f.key.createdAt
  }

  // The same entries with the tickets that t gives to their jobs.
  ghost function Reticket(d: seq<Entry>, t: map<JobId, nat>): (r: seq<Entry>)
    requires forall e :: e in d ==> e.value in t
    ensures |r| == |d|
    ensures forall i :: 0 <= i < |d| ==> r[i] == Item(d[i].key.(ticket := t[d[i].value]), d[i].value)
  {
    seq(|d|, i requires 0 <= i < |d| => Item(d[i].key.(ticket := t[d[i].value]), d[i].value))
  }

  // Jobs tied on priority and creation time have their tickets in the same order in d and in t.
  ghost predicate TiesKept(d: seq<Entry>, t: map<JobId, nat>)
    requires forall e :: e in d ==> e.value in t
  {
    forall i, j :: 0 <= i < j < |d| && Tied(d[i], d[j]) ==> t[d[i].value] < t[d[j].value]
  }

  lemma ReticketSorted(d: seq<Entry>, t: map<JobId, nat>)
    requires StrictlySorted(d) && forall e :: e in d ==> e.value in t
    ensures StrictlySorted(Reticket(d, t)) <==> TiesKept(d, t)
  {
    var r := Reticket(d, t);
    forall i, j | 0 <= i < j < |d|
      ensures Less(r[i].key, r[j].key) <==> (Tied(d[i], d[j]) ==> t[d[i].value] < t[d[j].value])
    {
      assert Less(d[i].key, d[j].key);
    }
  }

  // Re-ticketing keeps the order of a drain exactly when it keeps the order of ties.
  lemma SameOrderIff(d: seq<Entry>, t: map<JobId, nat>, d': seq<Entry>)
    requires StrictlySorted(d) && StrictlySorted(d') && forall e :: e in d ==> e.value in t
    requires forall e :: e in d' <==> e in Reticket(d, t)
    requires forall e :: e in d' ==> e.value in t && e.key.ticket == t[e.value]
    requires forall e, f :: e in d' && f in d' && e.value == f.value ==> e == f
    ensures Ids(d) == Ids(d') <==> TiesKept(d, t)
  {
    var r := Reticket(d, t);
    ReticketSorted(d, t);
    if TiesKept(d, t) {
      SortedUnique(r, d');
      assert Ids(d) == Ids(r);
    }
    if Ids(d) == Ids(d') {
      forall i | 0 <= i < |d| ensures r[i] == d'[i] {
        assert r[i] in r && r[i] in d' && d'[i] in d';
        assert Ids(d)[i] == Ids(d')[i];
      }
      assert r == d';
    }
  }

  // ---------- What loading does to the tickets ----------

  // x comes before y in order.
  ghost predicate Before(order: seq<JobId>, x: JobId, y: JobId) {
    exists i, j :: 0 <= i < j < |order| && order[i] == x && order[j] == y
  }

  // The entry of job id after loading, if its ticket is c.
  function LoadedEntry(jobs: JobTable, id: JobId, c: nat): Entry
    requires id in jobs
  {
    Item(Key(PriorityFromString(PriorityToString(jobs[id].priority)), jobs[id].createdAt, c), id)
  }

  // tickets are what loading the jobs in order hands out, starting after counter.
  ghost predicate HandsOut(order: seq<JobId>, jobs: JobTable, tickets: map<JobId, nat>)
    requires forall id :: id in order ==> id in jobs
  {
    && (forall id :: id in tickets <==> id in order && jobs[id].status == Queued)
    && (forall x, y :: x in tickets && y in tickets && Before(order, x, y) ==> tickets[x] < tickets[y])
  }

  lemma BeforeInFront(front: seq<JobId>, id: JobId, x: JobId, y: JobId)
    requires id !in front && Before(front + [id], x, y)
    ensures y != id ==> Before(front, x, y)
    ensures x in front
  {
    var all := front + [id];
    var i, j :| 0 <= i < j < |all| && all[i] == x && all[j] == y;
    assert front[i] == x;
    if y != id { assert front[j] == y; }
  }

  lemma HandsOutNext(front: seq<JobId>, id: JobId, jobs: JobTable, tickets: map<JobId, nat>, c: nat)
    requires id !in front && id in jobs && forall x :: x in front ==> x in jobs
    requires HandsOut(front, jobs, tickets) && forall x :: x in tickets ==> tickets[x] <= c
    ensures HandsOut(front + [id], jobs, if jobs[id].status == Queued then tickets[id := c + 1] else tickets)
  {
    var t := if jobs[id].status == Queued then tickets[id := c + 1] else tickets;
    forall x, y | x in t && y in t && Before(front + [id], x, y) ensures t[x] < t[y] {
      BeforeInFront(front, id, x, y);
    }
  }

  // es holds exactly the entries of the ticketed jobs.
  ghost predicate EntriesOf(jobs: JobTable, tickets: map<JobId, nat>, es: seq<Entry>) {
    forall e :: e in es <==> e.value in tickets && e.value in jobs && e == LoadedEntry(jobs, e.value, tickets[e.value])
  }

  lemma EntriesNext(jobs: JobTable, tickets: map<JobId, nat>, es: seq<Entry>, id: JobId, c: nat)
    requires id in jobs && id !in tickets && EntriesOf(jobs, tickets, es)
    ensures EntriesOf(jobs, tickets[id := c], es + [LoadedEntry(jobs, id, c)])
  {
  }

  lemma {:induction false} LoadedFacts(order: seq<JobId>, jobs: JobTable, counter: nat)
    returns (tickets: map<JobId, nat>)
    requires NoDup(order) && forall id :: id in order ==> id in jobs
    ensures HandsOut(order, jobs, tickets)
    ensures var (es, c) := LoadedEntries(Records(order, jobs), counter);
      (forall id :: id in tickets ==> counter < tickets[id] <= c) && EntriesOf(jobs, tickets, es)
  {
    if order == [] {
      tickets := map[];
    } else {
      var front, id := order[..|order| - 1], order[|order| - 1];
      var records := Records(order, jobs);
      assert records[..|records| - 1] == Records(front, jobs);
      assert order == front + [id];
      var (es, c) := LoadedEntries(Records(front, jobs), counter);
      assert LoadedEntries(records, counter) ==
        if jobs[id].status == Queued then (es + [LoadedEntry(jobs, id, c + 1)], c + 1) else (es, c);
      hide LoadedEntries, LoadedEntry, Records;
      var before := LoadedFacts(front, jobs, counter);
      HandsOutNext(front, id, jobs, before, c);
      tickets := before;
      if jobs[id].status == Queued {
        EntriesNext(jobs, before, es, id, c + 1);
        tickets := before[id := c + 1];
      }
    }
  }

  // ---------- Saving and loading keeps the schedule ----------

  // The entry carries the priority and the creation time of the job it names.
  ghost predicate Names(jobs: JobTable, e: Entry) {
    e.value in jobs && e.key.priority == jobs[e.value].priority && e.key.createdAt == jobs[e.value].createdAt
  }

  // The heap holds exactly one entry for every queued job, under the job's own key.
  ghost predicate OneEntryEach(jobs: JobTable, entries: multiset<Entry>) {
    && (forall e :: e in entries ==> Names(jobs, e))
    && (forall id :: id in jobs && jobs[id].status == Queued ==> exists e :: e in entries && e.value == id)
    && (forall e, f :: e in entries && f in entries && e.value == f.value && jobs[e.value].status == Queued ==> e == f)
  }

  // Ready jobs that tie on priority and creation time have tickets in the order of the job table.
  ghost predicate TiesInTableOrder(order: seq<JobId>, entries: multiset<Entry>, jobs: JobTable, now: real) {
    forall e, f {:trigger IsReady(jobs, now, e), IsReady(jobs, now, f)} ::
      (e in entries && f in entries && IsReady(jobs, now, e) && IsReady(jobs, now, f) && Tied(e, f) &&
       e.key.ticket < f.key.ticket) ==>
        Before(order, e.value, f.value)
  }

  ghost predicate DrainedInTableOrder(order: seq<JobId>, d: seq<Entry>) {
    forall i, j :: 0 <= i < j < |d| && Tied(d[i], d[j]) ==> Before(order, d[i].value, d[j].value)
  }

  lemma TiesAreDrainedInOrder(order: seq<JobId>, entries: multiset<Entry>, jobs: JobTable, now: real, d: seq<Entry>)
    requires DrainsTo(entries, jobs, now, d)
    ensures TiesInTableOrder(order, entries, jobs, now) <==> DrainedInTableOrder(order, d)
  {
    if TiesInTableOrder(order, entries, jobs, now) {
      forall i, j | 0 <= i < j < |d| && Tied(d[i], d[j]) ensures Before(order, d[i].value, d[j].value) {
        assert d[i] in d && d[j] in d && Less(d[i].key, d[j].key);
        assert IsReady(jobs, now, d[i]) && IsReady(jobs, now, d[j]);
      }
    }
    if DrainedInTableOrder(order, d) {
      forall e, f | e in entries && f in entries && IsReady(jobs, now, e) && IsReady(jobs, now, f) && Tied(e, f) &&
        e.key.ticket < f.key.ticket
        ensures Before(order, e.value, f.value)
      {
        assert e in d && f in d;
        var i :| 0 <= i < |d| && d[i] == e;
        var j :| 0 <= j < |d| && d[j] == f;
        InOrderOfKeys(d, i, j);
      }
    }
  }

  lemma InOrderOfKeys(d: seq<Entry>, i: nat, j: nat)
    requires StrictlySorted(d) && i < |d| && j < |d| && Less(d[i].key, d[j].key)
    ensures i < j
  {
  }

  lemma {:induction false} BeforeTotal(order: seq<JobId>, x: JobId, y: JobId)
    requires NoDup(order) && x in order && y in order && x != y
    ensures Before(order, x, y) <==> !Before(order, y, x)
  {
    NoDupMeansDistinct(order);
    var i :| 0 <= i < |order| && order[i] == x;
    var j :| 0 <= j < |order| && order[j] == y;
    assert Before(order, x, y) <==> i < j;
    assert Before(order, y, x) <==> j < i;
  }

  lemma TiesAreTableOrder(order: seq<JobId>, jobs: JobTable, tickets: map<JobId, nat>, d: seq<Entry>)
    requires NoDup(order) && (forall id :: id in order ==> id in jobs) && HandsOut(order, jobs, tickets)
    requires forall e :: e in d ==> e.value in tickets
    requires forall i, j :: 0 <= i < j < |d| ==> d[i].value != d[j].value
    ensures TiesKept(d, tickets) <==> DrainedInTableOrder(order, d)
  {
    forall i, j | 0 <= i < j < |d|
      ensures tickets[d[i].value] < tickets[d[j].value] <==> Before(order, d[i].value, d[j].value)
    {
      BeforeTotal(order, d[i].value, d[j].value);
    }
  }

  lemma {:induction false} LoadedJobsSame(order: seq<JobId>, jobs: JobTable)
    requires NoDup(order) && forall id :: id in order ==> id in jobs && 0 <= jobs[id].priority <= 3
    ensures LoadedJobs(Records(order, jobs)) == map id | id in order :: jobs[id]
  {
    if order != [] {
      var front, id := order[..|order| - 1], order[|order| - 1];
      assert Records(order, jobs)[..|order| - 1] == Records(front, jobs);
      LoadedJobsSame(front, jobs);
      hide PriorityFromString, PriorityToString, Records;
      PriorityRoundTrip(jobs[id].priority);
      assert order == front + [id];
    }
  }

  // The loaded queue holds the drained entries of the old one under new tickets.
  lemma ReloadedEntries(jobs: JobTable, entries: multiset<Entry>, tickets: map<JobId, nat>, es: seq<Entry>, now: real,
                        d: seq<Entry>, d': seq<Entry>)
    requires OneEntryEach(jobs, entries) && forall id :: id in jobs ==> 0 <= jobs[id].priority <= 3
    requires forall id :: id in tickets <==> id in jobs && jobs[id].status == Queued
    requires EntriesOf(jobs, tickets, es)
    requires DrainsTo(entries, jobs, now, d) && DrainsTo(multiset(es), jobs, now, d')
    ensures forall e :: e in d ==> e.value in tickets
    ensures forall e :: e in d' <==> e in Reticket(d, tickets)
  {
    forall id | id in jobs ensures PriorityFromString(PriorityToString(jobs[id].priority)) == jobs[id].priority {
      PriorityRoundTrip(jobs[id].priority);
    }
    var r := Reticket(d, tickets);
    forall e | e in d' ensures e in r {
      assert e in multiset(es) && e in es;
      var e0 :| e0 in entries && e0.value == e.value;
      assert Names(jobs, e0) && e0 in d;
      var i :| 0 <= i < |d| && d[i] == e0;
      assert r[i] == e;
    }
    forall e | e in r ensures e in d' {
      var i :| 0 <= i < |d| && r[i] == e;
      assert d[i] in d && Names(jobs, d[i]);
      assert e == LoadedEntry(jobs, e.value, tickets[e.value]);
      assert e in es && e in multiset(es);
    }
  }

  lemma DrainedOnce(jobs: JobTable, entries: multiset<Entry>, now: real, d: seq<Entry>)
    requires OneEntryEach(jobs, entries) && DrainsTo(entries, jobs, now, d)
    ensures forall i, j :: 0 <= i < j < |d| ==> d[i].value != d[j].value
  {
    forall i, j | 0 <= i < j < |d| ensures d[i].value != d[j].value {
      assert d[i] in d && d[j] in d && Less(d[i].key, d[j].key);
    }
  }

  // Saving and loading keeps the order in which the ready jobs come out, at any time, exactly when
  // jobs that tie on priority and creation time come out in the order of the job table.
  lemma SaveLoadKeepsOrderIff(order: seq<JobId>, jobs: JobTable, entries: multiset<Entry>, counter: nat, now: real,
                              d: seq<Entry>, d': seq<Entry>)
    requires NoDup(order) && (forall id :: id in order <==> id in jobs)
    requires OneEntryEach(jobs, entries) && forall id :: id in jobs ==> 0 <= jobs[id].priority <= 3
    requires DrainsTo(entries, jobs, now, d)
    requires var records := Records(order, jobs);
      DrainsTo(multiset(LoadedEntries(records, counter).0), LoadedJobs(records), now, d')
    ensures Ids(d) == Ids(d') <==> TiesInTableOrder(order, entries, jobs, now)
  {
    LoadedJobsSame(order, jobs);
    assert (map id | id in order :: jobs[id]) == jobs;
    var tickets := LoadedFacts(order, jobs, counter);
    var es := LoadedEntries(Records(order, jobs), counter).0;
    ReloadedEntries(jobs, entries, tickets, es, now, d, d');
    DrainedOnce(jobs, entries, now, d);
    TiesAreTableOrder(order, jobs, tickets, d);
    TiesAreDrainedInOrder(order, entries, jobs, now, d);
    forall e | e in d' ensures e.value in tickets && e == LoadedEntry(jobs, e.value, tickets[e.value]) {
      assert e in es;
    }
    SameOrderIff(d, tickets, d');
  }

  // In particular it is kept when no two jobs tie.
  lemma SaveLoadKeepsOrder(order: seq<JobId>, jobs: JobTable, entries: multiset<Entry>, counter: nat, now: real,
                           d: seq<Entry>, d': seq<Entry>)
    requires NoDup(order) && (forall id :: id in order <==> id in jobs)
    requires OneEntryEach(jobs, entries) && forall id :: id in jobs ==> 0 <= jobs[id].priority <= 3
    requires forall x, y ::
      (x in jobs && y in jobs && jobs[x].priority == jobs[y].priority && jobs[x].createdAt == jobs[y].createdAt) ==>
        x == y
    requires DrainsTo(entries, jobs, now, d)
    requires var records := Records(order, jobs);
      DrainsTo(multiset(LoadedEntries(records, counter).0), LoadedJobs(records), now, d')
    ensures Ids(d) == Ids(d')
  {
    DrainedOnce(jobs, entries, now, d);
    forall i, j | 0 <= i < j < |d| ensures !Tied(d[i], d[j]) {
      assert d[i] in d && d[j] in d && Names(jobs, d[i]) && Names(jobs, d[j]);
    }
    TiesAreDrainedInOrder(order, entries, jobs, now, d);
    SaveLoadKeepsOrderIff(order, jobs, entries, counter, now, d, d');
  }

  // Requeueing a failed or cancelled job pushes a new entry without looking for an old one. It
  // leaves one entry per queued job exactly when the heap held none for this job; a job that was
  // cancelled while waiting still has one.
  lemma RequeueKeepsOneEntryIff(jobs: JobTable, entries: multiset<Entry>, e: Entry)
    requires OneEntryEach(jobs, entries) && Names(jobs, e) && jobs[e.value].status in {Failed, Cancelled}
    requires forall f :: f in entries ==> f.key.ticket < e.key.ticket
    ensures OneEntryEach(jobs[e.value := jobs[e.value].(status := Queued)], entries + multiset{e}) <==>
            forall f :: f in entries ==> f.value != e.value
  {
    var jobs', entries' := jobs[e.value := jobs[e.value].(status := Queued)], entries + multiset{e};
    assert e in entries';
    if f :| f in entries && f.value == e.value {
      assert f in entries' && f != e;
    } else {
      forall f | f in entries' ensures Names(jobs', f) { if f != e { assert f in entries; } }
      forall id | id in jobs' && jobs'[id].status == Queued ensures exists f :: f in entries' && f.value == id {
        if id != e.value {
          var f :| f in entries && f.value == id;
          assert f in entries';
        }
      }
    }
  }

  // Submitting a job keeps one entry per queued job exactly when it is not the resubmission of a job
  // that is still queued.
  lemma SubmitKeepsOneEntryIff(jobs: JobTable, entries: multiset<Entry>, e: Entry, v: JobView)
    requires OneEntryEach(jobs, entries) && (e.value in jobs ==> jobs[e.value] == v)
    requires e.key.priority == v.priority && e.key.createdAt == v.createdAt
    requires forall f :: f in entries ==> f.key.ticket < e.key.ticket
    ensures OneEntryEach(jobs[e.value := v], entries + multiset{e}) <==> e.value !in jobs || v.status != Queued
  {
    var jobs', entries' := jobs[e.value := v], entries + multiset{e};
    assert e in entries';
    if e.value in jobs && v.status == Queued {
      var f :| f in entries && f.value == e.value;
      assert f in entries' && f != e;
    } else {
      forall f | f in entries' ensures Names(jobs', f) && (f.value == e.value && v.status == Queued ==> f == e) {
        if f != e { assert f in entries && Names(jobs, f); }
      }
      forall id | id in jobs' && jobs'[id].status == Queued ensures exists f :: f in entries' && f.value == id {
        if id != e.value {
          var f :| f in entries && f.value == id;
          assert f in entries';
        }
      }
    }
  }

  // Taking a queued job off the heap to run it keeps one entry per queued job.
  lemma TakeKeepsOneEntry(jobs: JobTable, entries: multiset<Entry>, e: Entry, after: JobState)
    requires OneEntryEach(jobs, entries) && e in entries && jobs[e.value].status == Queued && after != Queued
    ensures OneEntryEach(jobs[e.value := jobs[e.value].(status := after)], entries - multiset{e})
  {
    var jobs', entries' := jobs[e.value := jobs[e.value].(status := after)], entries - multiset{e};
    forall f | f in entries' ensures Names(jobs', f) { assert f in entries && Names(jobs, f); }
    forall id | id in jobs' && jobs'[id].status == Queued ensures exists f :: f in entries' && f.value == id {
      var f :| f in entries && f.value == id;
      assert f in entries';
    }
  }

  // Peeking gives the next job's entry a new ticket, so the job stays next exactly when no other ready
  // job ties with it on priority and creation time.
  lemma PeekKeepsNextIff(entries: multiset<Entry>, jobs: JobTable, now: real, e: Entry, ticket: nat)
    requires TicketsUnique(entries) && IsNext(entries, jobs, now, e)
    requires forall f :: f in entries ==> f.key.ticket < ticket
    ensures var again := Item(e.key.(ticket := ticket), e.value);
      IsNext(entries - multiset{e} + multiset{again}, jobs, now, again) <==>
      forall f :: f in entries && IsReady(jobs, now, f) && f != e ==> !Tied(e, f)
  {
    var again := Item(e.key.(ticket := ticket), e.value);
    var entries' := entries - multiset{e} + multiset{again};
    forall f ensures f in entries' <==> f == again || (f in entries && f != e) {
      assert f in entries ==> entries[f] == 1;
    }
    forall f | f in entries && IsReady(jobs, now, f) && f != e ensures Less(again.key, f.key) <==> !Tied(e, f) {
      assert Less(e.key, f.key);
    }
    assert forall f :: f in entries ==> f != again;
  }

  // ---------- Inputs on which the schedule changes ----------

  // A job of normal priority, and its entry.
  function Sample(status: JobState): JobView {
    JobView(2, None, 1.0, status)
  }

  function SampleEntry(id: JobId, ticket: nat): Entry {
    Item(Key(2, 1.0, ticket), id)
  }

  lemma NothingQueued()
    ensures OneEntryEach(map[], multiset{})
  {
  }

  // Submitted, cancelled while waiting, and requeued, a job has two entries.
  lemma CancelThenRequeue(id: JobId)
    ensures var jobs, entries := map[id := Sample(Queued)], multiset{} + multiset{SampleEntry(id, 1)};
      var cancelled := jobs[id := jobs[id].(status := Cancelled)];
      && OneEntryEach(jobs, entries) && MayBecome(Queued, Cancelled)
      && OneEntryEach(cancelled, entries) && MayBecome(Cancelled, Queued)
      && !OneEntryEach(cancelled[id := cancelled[id].(status := Queued)], entries + multiset{SampleEntry(id, 2)})
  {
    var jobs, entries := map[id := Sample(Queued)], multiset{} + multiset{SampleEntry(id, 1)};
    var cancelled := jobs[id := jobs[id].(status := Cancelled)];
    NothingQueued();
    SubmitKeepsOneEntryIff(map[], multiset{}, SampleEntry(id, 1), Sample(Queued));
    assert map[][id := Sample(Queued)] == jobs;
    assert SampleEntry(id, 1) in entries;
    RequeueKeepsOneEntryIff(cancelled, entries, SampleEntry(id, 2));
  }

  // Of two jobs submitted with the same priority and creation time the first is next; after a peek
  // the second is ...
  lemma PeekSwapsTies(a: JobId, b: JobId, now: real)
    requires a != b
    ensures var jobs := map[a := Sample(Queued), b := Sample(Queued)];
      var entries := multiset{SampleEntry(a, 1), SampleEntry(b, 2)};
      var peeked := entries - multiset{SampleEntry(a, 1)} + multiset{SampleEntry(a, 3)};
      && OneEntryEach(jobs, entries) && IsNext(entries, jobs, now, SampleEntry(a, 1))
      && OneEntryEach(jobs, peeked) && IsNext(peeked, jobs, now, SampleEntry(b, 2))
  {
    var jobs := map[a := Sample(Queued), b := Sample(Queued)];
    var entries := multiset{SampleEntry(a, 1), SampleEntry(b, 2)};
    var peeked := entries - multiset{SampleEntry(a, 1)} + multiset{SampleEntry(a, 3)};
    assert SampleEntry(a, 1) in entries && SampleEntry(b, 2) in entries;
    assert peeked == multiset{SampleEntry(a, 3), SampleEntry(b, 2)};
    assert SampleEntry(a, 3) in peeked && SampleEntry(b, 2) in peeked;
  }

  // ... and saving and loading, which hands out tickets in table order, swaps them back.
  lemma ReloadSwapsTies(a: JobId, b: JobId, now: real, counter: nat, d: seq<Entry>, d': seq<Entry>)
    requires a != b
    requires var jobs := map[a := Sample(Queued), b := Sample(Queued)];
      && DrainsTo(multiset{SampleEntry(a, 3), SampleEntry(b, 2)}, jobs, now, d)
      && DrainsTo(multiset(LoadedEntries(Records([a, b], jobs), counter).0), LoadedJobs(Records([a, b], jobs)), now, d')
    ensures Ids(d) != Ids(d')
  {
    var jobs := map[a := Sample(Queued), b := Sample(Queued)];
    var entries := multiset{SampleEntry(a, 3), SampleEntry(b, 2)};
    var e, f := SampleEntry(b, 2), SampleEntry(a, 3);
    assert e in entries && f in entries && IsReady(jobs, now, e) && IsReady(jobs, now, f) && Tied(e, f);
    assert !Before([a, b], b, a);
    assert NoDup([a, b]) by { assert [a, b][..1] == [a] && [a][..0] == []; }
    SaveLoadKeepsOrderIff([a, b], jobs, entries, counter, now, d, d');
  }
}
