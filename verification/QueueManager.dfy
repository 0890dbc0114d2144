// core/queue_manager.py: the queue manager as a mutable object over the heap and the job objects.

module QueueManagers {
  import opened Basics
  import opened Sequences
  import opened Heap
  import opened Jobs
  import opened JobQueue

  datatype Reply = NotFound | AlreadyTerminal | Illegal | Done

  predicate MayShow(now: real, lo: real, hi: real) {
    lo <= now <= hi
  }

  class QueueManager {
    // The heap; entries name their job by id.
    var queue: seq<Entry>
    // The job dictionary: insertion order and contents.
    var order: seq<JobId>
    var jobs: map<JobId, Job>
    var counter: nat
    var disk: QueueFile

    ghost predicate Valid()
      reads this
    {
      && IsHeap(queue)
      && (forall e :: e in multiset(queue) ==> e.value in jobs && e.key.ticket <= counter)
      && TicketsUnique(multiset(queue))
      && NoDup(order) && (forall id :: id in order <==> id in jobs)
      && (forall id :: id in jobs ==> jobs[id].id == id)
    }

    function Table(): JobTable
      reads this`jobs, jobs.Values
    {
      map id | id in jobs :: jobs[id].View()
    }

    ghost function Entries(): multiset<Entry>
      reads this`queue
    {
      multiset(queue)
    }

    constructor ()
      ensures Valid() && queue == [] && order == [] && counter == 0 && disk == Missing
    {
      queue, order, jobs, counter, disk := [], [], map[], 0, Missing;
    }

    // heappush of a new entry for the job, with the next ticket.
    method PushEntry(job: Job)
      requires Valid() && job.id in jobs
      modifies this`queue, this`counter
      ensures Valid() && counter == old(counter) + 1
      ensures Entries() == old(Entries()) + multiset{Item(Key(job.priority, job.createdAt, counter), job.id)}
    {
      hide IsHeap, NoDup, TicketsUnique;
      counter := counter + 1;
      var e := Item(Key(job.priority, job.createdAt, counter), job.id);
      NewTicketUnique(Entries(), e);
      queue := Push(queue, e);
    }

    // _save
    method Save()
      requires Valid()
      modifies this`disk
      ensures Valid() && disk == Written(Saved(counter, Records(order, Table())))
    {
      hide IsHeap, TicketsUnique, NoDup;
      disk := Written(Saved(counter, Records(order, Table())));
    }

    method AddJob(job: Job)
      requires Valid() && job.id !in jobs
      modifies this`order, this`jobs
      ensures Valid() && order == old(order) + [job.id] && jobs == old(jobs)[job.id := job]
    {
      NoDupAppend(order, job.id);
      order, jobs := order + [job.id], jobs[job.id := job];
    }

    // The id is fresh, as the generated ones are, or it is the same job once more.
    method Submit(job: Job)
      requires Valid() && (job.id in jobs ==> jobs[job.id] == job)
      modifies this
      ensures Valid() && counter == old(counter) + 1
      ensures order == if job.id in old(jobs) then old(order) else old(order) + [job.id]
      ensures jobs == old(jobs)[job.id := job]
      ensures Entries() == old(Entries()) + multiset{Item(Key(job.priority, job.createdAt, counter), job.id)}
      ensures disk == Written(Saved(counter, Records(order, Table())))
    {
      if job.id !in jobs { AddJob(job); }
      PushAndSave(job);
    }

    method PushAndSave(job: Job)
      requires Valid() && job.id in jobs
      modifies this`queue, this`counter, this`disk
      ensures Valid() && counter == old(counter) + 1
      ensures Entries() == old(Entries()) + multiset{Item(Key(job.priority, job.createdAt, counter), job.id)}
      ensures disk == Written(Saved(counter, Records(order, Table())))
    {
      PushEntry(job);
      Save();
    }

    // time.time(): the clock is read again for every entry with a time; a call reads it between lo and hi.
    method Time(lo: real, hi: real) returns (now: real)
      requires lo <= hi
      ensures lo <= now <= hi
    {
      assert MayShow(lo, lo, hi);
      now :| MayShow(now, lo, hi);
      assert MayShow(now, lo, hi);
    }

    method PopLeast() returns (e: Entry)
      requires IsHeap(queue) && queue != []
      modifies this`queue
      ensures IsHeap(queue) && |queue| < |old(queue)| && old(Entries()) == Entries() + multiset{e}
      ensures forall f :: f in old(Entries()) ==> Leq(e.key, f.key)
    {
      ghost var heap := queue;
      e, queue := Pop(queue);
      assert |multiset(heap)| == |multiset(queue)| + 1;
      forall f: Entry | f in multiset(heap) ensures Leq(e.key, f.key) { assert f in heap; }
    }

    // Pops until a ready entry comes off; what comes off before it is skipped.
    method PopUntilReady(lo: real, hi: real)
      returns (job: Option<JobId>, ghost entry: Option<Entry>, skipped: seq<Entry>)
      requires IsHeap(queue) && lo <= hi && forall e :: e in Entries() ==> e.value in jobs
      modifies this`queue
      ensures IsHeap(queue) && (job.None? <==> entry.None?)
      ensures job.None? ==> Entries() + multiset(skipped) == old(Entries()) && NoneReady(old(Entries()), Table(), lo)
      ensures job.Some? ==> entry.value.value == job.value && IsLeastReady(old(Entries()), Table(), lo, hi, entry.value)
      ensures job.Some? ==> Entries() + multiset(skipped) + multiset{entry.value} == old(Entries())
    {
      hide IsHeap, IsLeastReady, NoneReady, Popped;
      ghost var before, table := Entries(), Table();
      skipped, job, entry := [], None, None;
      NonePopped(before, table, lo);
      while queue != []
        invariant IsHeap(queue) && Popped(before, Entries(), skipped, table, lo)
        decreases |queue|
      {
        ghost var left := Entries();
        var e := PopLeast();
        EntryOf(before, left, skipped, table, lo, e);
        var now := Time(lo, hi);
        if jobs[e.value].View().Ready(now) {
          FirstReadyIsLeast(before, left, Entries(), skipped, e, table, lo, hi);
          return Some(e.value), Some(e), skipped;
        }
        OneSkipped(before, left, Entries(), skipped, e, table, lo);
        skipped := skipped + [e];
      }
      AllPopped(before, Entries(), skipped, table, lo);
    }

    // Pops until a ready entry comes off and puts back what came off before it.
    method TakeReady(lo: real, hi: real) returns (job: Option<JobId>, ghost entry: Option<Entry>)
      requires IsHeap(queue) && lo <= hi && forall e :: e in Entries() ==> e.value in jobs
      modifies this`queue
      ensures IsHeap(queue) && (job.None? <==> entry.None?)
      ensures job.None? ==> Entries() == old(Entries()) && NoneReady(old(Entries()), Table(), lo)
      ensures job.Some? ==> entry.value.value == job.value && IsLeastReady(old(Entries()), Table(), lo, hi, entry.value)
      ensures job.Some? ==> Entries() + multiset{entry.value} == old(Entries())
    {
      var skipped;
      job, entry, skipped := PopUntilReady(lo, hi);
      PushAll(skipped);
    }

    // Removes the least ready entry, or nothing if no entry is ready. Entries that are popped and
    // not ready go back on the heap.
    method NextJob(lo: real, hi: real) returns (job: Option<JobId>, ghost entry: Option<Entry>)
      requires Valid() && lo <= hi
      modifies this`queue
      ensures Valid()
      ensures job.None? <==> entry.None?
      ensures job.None? ==> Entries() == old(Entries()) && NoneReady(old(Entries()), Table(), lo)
      ensures job.Some? ==> entry.value.value == job.value && IsNextWithin(old(Entries()), Table(), lo, hi, entry.value)
      ensures job.Some? ==> Entries() + multiset{entry.value} == old(Entries())
    {
      ghost var before := Entries();
      job, entry := TakeReady(lo, hi);
      FewerEntries(before, Entries());
      if job.Some? { LeastReadyIsNext(before, Table(), lo, hi, entry.value); }
    }

    method PushAll(skipped: seq<Entry>)
      requires IsHeap(queue)
      modifies this`queue
      ensures IsHeap(queue) && multiset(queue) == multiset(old(queue)) + multiset(skipped)
    {
      for i := 0 to |skipped|
        invariant IsHeap(queue) && multiset(queue) == multiset(old(queue)) + multiset(skipped[..i])
      {
        queue := Push(queue, skipped[i]);
        assert skipped[..i + 1] == skipped[..i] + [skipped[i]];
      }
      assert skipped[..|skipped|] == skipped;
    }

    // One more job taken.
    method DrainStep(lo: real, hi: real, ghost before: multiset<Entry>, ghost drained: seq<Entry>)
      returns (job: Option<JobId>, ghost more: seq<Entry>)
      requires Valid() && lo <= hi && DrainedSoFar(before, Entries(), Table(), lo, hi, drained)
      modifies this`queue
      ensures Valid()
      ensures job.None? ==>
        DrainsWithin(before, Table(), lo, hi, drained) && Entries() + multiset(drained) == before && more == drained
      ensures job.Some? ==> DrainedSoFar(before, Entries(), Table(), lo, hi, more) && |Entries()| < |old(Entries())|
      ensures job.Some? ==> Ids(more) == Ids(drained) + [job.value]
    {
      hide IsHeap, TicketsUnique, NoDup, DrainedSoFar, NoneReady, IsNextWithin, DrainsWithin;
      ghost var left := Entries();
      ghost var entry;
      job, entry := NextJob(lo, hi);
      more := drained;
      if job.None? {
        DrainEnds(before, left, Table(), lo, hi, drained);
      } else {
        assert Entries() == left - multiset{entry.value};
        DrainContinues(before, left, Table(), lo, hi, drained, entry.value);
        IdsAppend(drained, entry.value);
        more := drained + [entry.value];
      }
    }

    // Taking jobs until none is ready, as the worker pool does while it has idle workers.
    method Drain(lo: real, hi: real) returns (ids: seq<JobId>, ghost drained: seq<Entry>)
      requires Valid() && lo <= hi
      modifies this`queue
      ensures Valid() && ids == Ids(drained)
      ensures DrainsWithin(old(Entries()), Table(), lo, hi, drained)
      ensures Entries() + multiset(drained) == old(Entries())
    {
      ghost var before := Entries();
      ids, drained := [], [];
      while true
        invariant Valid() && ids == Ids(drained)
        invariant DrainedSoFar(before, Entries(), Table(), lo, hi, drained)
        decreases |Entries()|
      {
        var job;
        job, drained := DrainStep(lo, hi, before, drained);
        if job.None? { break; }
        ids := ids + [job.value];
      }
    }

    // The entry of a ready job goes back with a new ticket.
    method Peek(lo: real, hi: real) returns (job: Option<JobId>)
      requires Valid() && lo <= hi
      modifies this`queue, this`counter
      ensures Valid()
      ensures job.None? ==>
        NoneReady(old(Entries()), Table(), lo) && Entries() == old(Entries()) && counter == old(counter)
      ensures job.Some? ==> exists e: Entry ::
        (IsNextWithin(old(Entries()), Table(), lo, hi, e) && e.value == job.value && Entries() ==
           old(Entries()) - multiset{e} +
             multiset{Item(Key(jobs[job.value].priority, jobs[job.value].createdAt, counter), job.value)})
    {
      hide IsHeap, TicketsUnique, NoDup, IsNextWithin, NoneReady;
      ghost var before := Entries();
      ghost var entry;
      job, entry := NextJob(lo, hi);
      if job.Some? {
        assert IsNextWithin(before, Table(), lo, hi, entry.value) && Entries() == before - multiset{entry.value};
        PushEntry(jobs[job.value]);
      }
    }

    method ChangeStatus(id: JobId, after: JobState) returns (ok: bool)
      requires Valid() && id in jobs
      modifies jobs[id]
      ensures Valid() && ok == MayBecome(old(Table())[id].status, after)
      ensures Table() == if ok then old(Table())[id := old(Table())[id].(status := after)] else old(Table())
    {
      ok := jobs[id].Transition(after);
      assert Table() == old(Table())[id := jobs[id].View()];
    }

    // Cancelling leaves the job's entry on the heap.
    method CancelJob(id: JobId) returns (reply: Reply)
      requires Valid()
      modifies this`disk, jobs.Values
      ensures Valid()
      ensures reply ==
        if id !in jobs then NotFound
        else if old(Table())[id].status in {Completed, Failed, Cancelled} then AlreadyTerminal
        else Done
      ensures Table() ==
        if reply == Done then old(Table())[id := old(Table())[id].(status := Cancelled)] else old(Table())
      ensures disk == if reply == Done then Written(Saved(counter, Records(order, Table()))) else old(disk)
    {
      hide IsHeap, TicketsUnique, NoDup, Records;
      if id !in jobs { return NotFound; }
      if jobs[id].status.Terminal() { return AlreadyTerminal; }
      var ok := ChangeStatus(id, Cancelled);
      if !ok { return Illegal; }
      Save();
      return Done;
    }

    method RequeueFailed(id: JobId) returns (reply: Reply)
      requires Valid()
      modifies this`queue, this`counter, this`disk, jobs.Values
      ensures Valid()
      ensures reply ==
        if id !in jobs then NotFound else if old(Table())[id].status in {Failed, Cancelled} then Done else Illegal
      ensures Table() == if reply == Done then old(Table())[id := old(Table())[id].(status := Queued)] else old(Table())
      ensures reply == Done ==> counter == old(counter) + 1
      ensures reply == Done ==>
        Entries() == old(Entries()) + multiset{Item(Key(jobs[id].priority, jobs[id].createdAt, counter), id)}
      ensures reply != Done ==> Entries() == old(Entries()) && counter == old(counter)
      ensures disk == if reply == Done then Written(Saved(counter, Records(order, Table()))) else old(disk)
    {
      hide IsHeap, TicketsUnique, NoDup, MayBecome, Records;
      if id !in jobs { return NotFound; }
      QueuedAgainIff(jobs[id].status);
      var ok := ChangeStatus(id, Queued);
      if !ok { return Illegal; }
      PushAndSave(jobs[id]);
      return Done;
    }

    // What was saved, with the entries and the counter that loading gives.
    ghost predicate Holding(saved: Saved)
      reads this, jobs.Values
    {
      LoadedFrom(saved, order, Table(), Entries(), counter)
    }

    // One more of the saved jobs.
    method LoadNext(ghost saved: Saved, ghost i: nat, r: Record)
      requires i < |saved.records| && r == saved.records[i] && NoDup(RecordIds(saved.records))
      requires Valid() && Holding(Front(saved, i))
      modifies this`queue, this`order, this`jobs, this`counter
      ensures Valid() && Holding(Front(saved, i + 1)) && fresh(jobs.Values - old(jobs.Values))
    {
      hide IsHeap, TicketsUnique, LoadedFrom, NoDup;
      NextIsNew(saved, i, order, Table(), Entries(), counter);
      LoadOne(r);
      NextLoaded(saved, i, old(order), old(Table()), old(Entries()), old(counter), order, Table(), Entries(), counter);
    }

    // _load: every job up to the first broken record is rebuilt, and the queued ones are pushed again
    // with new tickets.
    constructor Load(file: QueueFile)
      requires NoDup(RecordIds(Loadable(file).records))
      ensures Valid() && disk == file && fresh(jobs.Values) && Holding(Loadable(file))
      ensures !file.Holds? ==> order == [] && queue == [] && counter == 0
    {
      queue, order, jobs, counter, disk := [], [], map[], if file.Holds? then file.counter else 0, file;
      new;
      hide LoadedFrom, Sound, RecordIds;
      LoadAll(if file.Holds? then file.records else []);
    }

    method LoadAll(records: seq<Option<Record>>)
      requires Valid() && NoDup(RecordIds(Sound(records)))
      requires queue == [] && order == [] && jobs == map[]
      modifies this`queue, this`order, this`jobs, this`counter
      ensures Valid() && fresh(jobs.Values) && Holding(Saved(old(counter), Sound(records)))
    {
      hide IsHeap, TicketsUnique, NoDup, LoadedFrom;
      ghost var saved := Saved(counter, Sound(records));
      NothingLoaded(counter);
      assert saved.records[..0] == [];
      var i := 0;
      while i < |records| && records[i].Some?
        invariant i <= |saved.records| && Valid() && fresh(jobs.Values) && Holding(Front(saved, i))
      {
        LoadNext(saved, i, records[i].value);
        i := i + 1;
      }
      assert saved.records[..i] == saved.records;
    }

    method AddRebuilt(job: Job, r: Record)
      requires Valid() && r.id !in jobs && job.id == r.id && job.View() == FromRecord(r)
      modifies this`order, this`jobs
      ensures Valid() && order == old(order) + [r.id] && jobs == old(jobs)[r.id := job]
      ensures Table() == old(Table())[r.id := FromRecord(r)]
    {
      hide FromRecord;
      AddJob(job);
    }

    static method Rebuilt(r: Record) returns (job: Job)
      ensures fresh(job) && job.id == r.id && job.View() == FromRecord(r)
      ensures job.status == r.status && job.priority == PriorityFromString(r.priority) && job.createdAt == r.createdAt
    {
      job := new Job(r.id, PriorityFromString(r.priority), r.scheduleAt, r.createdAt, r.status);
    }

    method LoadOne(r: Record)
      requires Valid() && r.id !in jobs
      modifies this`queue, this`order, this`jobs, this`counter
      ensures Valid() && order == old(order) + [r.id] && fresh(jobs.Values - old(jobs.Values))
      ensures Table() == old(Table())[r.id := FromRecord(r)]
      ensures r.status != Queued ==> counter == old(counter) && Entries() == old(Entries())
      ensures r.status == Queued ==> counter == old(counter) + 1
      ensures r.status == Queued ==>
        Entries() == old(Entries()) + multiset{Item(Key(PriorityFromString(r.priority), r.createdAt, counter), r.id)}
    {
      hide IsHeap, TicketsUnique, NoDup, PriorityFromString;
      var job := Rebuilt(r);
      AddRebuilt(job, r);
      hide FromRecord;
      assert job.status == r.status;
      if job.status == Queued { PushEntry(job); }
    }
  }

  ghost predicate LoadedFrom(saved: Saved, order: seq<JobId>, jobs: JobTable, entries: multiset<Entry>, counter: nat) {
    && order == RecordIds(saved.records) && jobs == LoadedJobs(saved.records)
    && entries == multiset(LoadedEntries(saved.records, saved.counter).0)
    && counter == LoadedEntries(saved.records, saved.counter).1
  }

  ghost function Front(saved: Saved, i: nat): Saved
    requires i <= |saved.records|
  {
    saved.(records := saved.records[..i])
  }

  lemma NothingLoaded(counter: nat)
    ensures LoadedFrom(Saved(counter, []), [], map[], multiset{}, counter)
  {
  }

  lemma NextIsNew(saved: Saved, i: nat, order: seq<JobId>, jobs: JobTable, entries: multiset<Entry>, counter: nat)
    requires i < |saved.records| && NoDup(RecordIds(saved.records))
    requires LoadedFrom(Front(saved, i), order, jobs, entries, counter)
    ensures saved.records[i].id !in order
  {
    NoDupAt(RecordIds(saved.records), i);
    assert RecordIds(saved.records)[..i] == RecordIds(saved.records[..i]);
  }

  lemma NextLoaded(saved: Saved, i: nat, order: seq<JobId>, jobs: JobTable, entries: multiset<Entry>, counter: nat,
                   order': seq<JobId>, jobs': JobTable, entries': multiset<Entry>, counter': nat)
    requires i < |saved.records| && LoadedFrom(Front(saved, i), order, jobs, entries, counter)
    requires var r := saved.records[i];
      && order' == order + [r.id] && jobs' == jobs[r.id := FromRecord(r)]
      && (r.status != Queued ==> counter' == counter && entries' == entries)
      && (r.status == Queued ==> counter' == counter + 1)
      && (r.status == Queued ==>
            entries' == entries + multiset{Item(Key(PriorityFromString(r.priority), r.createdAt, counter'), r.id)})
    ensures LoadedFrom(Front(saved, i + 1), order', jobs', entries', counter')
  {
    LoadedNext(saved.records, i, saved.counter);
    var r, done, next := saved.records[i], saved.records[..i], saved.records[..i + 1];
    var (es, c) := LoadedEntries(done, saved.counter);
    var (es', c') := LoadedEntries(next, saved.counter);
    hide LoadedEntries, LoadedJobs, FromRecord, PriorityFromString;
    assert RecordIds(next) == RecordIds(done) + [r.id];
    assert counter' == c';
    assert entries' == multiset(es');
  }

  // d has been taken from before, left is still there, and everything in left that was ready at the
  // start comes after d.
  ghost predicate DrainedSoFar(before: multiset<Entry>, left: multiset<Entry>, jobs: JobTable, lo: real, hi: real,
                               d: seq<Entry>) {
    && left + multiset(d) == before && SortedFrom(d, jobs, lo)
    && (forall e :: e in d ==> IsReady(jobs, hi, e))
    && (forall e, f :: e in d && f in left && IsReady(jobs, lo, f) ==> Less(e.key, f.key))
  }

  lemma DrainContinues(before: multiset<Entry>, left: multiset<Entry>, jobs: JobTable, lo: real, hi: real,
                       d: seq<Entry>, e: Entry)
    requires DrainedSoFar(before, left, jobs, lo, hi, d) && TicketsUnique(left) && IsNextWithin(left, jobs, lo, hi, e)
    ensures DrainedSoFar(before, left - multiset{e}, jobs, lo, hi, d + [e])
  {
    var d' := d + [e];
    forall i, j | 0 <= i < j < |d'| && IsReady(jobs, lo, d'[j]) ensures Less(d'[i].key, d'[j].key) {
      assert d'[i] in d;
    }
  }

  lemma DrainEnds(before: multiset<Entry>, left: multiset<Entry>, jobs: JobTable, lo: real, hi: real, d: seq<Entry>)
    requires DrainedSoFar(before, left, jobs, lo, hi, d) && NoneReady(left, jobs, lo)
    ensures DrainsWithin(before, jobs, lo, hi, d) && left + multiset(d) == before
  {
    forall e ensures e in d ==> e in before ensures e in before && IsReady(jobs, lo, e) ==> e in d {
      assert e in d <==> e in multiset(d);
    }
  }

  ghost predicate IsLeastReady(entries: multiset<Entry>, jobs: JobTable, lo: real, hi: real, e: Entry) {
    && e in entries && IsReady(jobs, hi, e)
    && forall f :: f in entries && IsReady(jobs, lo, f) ==> Leq(e.key, f.key)
  }

  lemma LeastReadyIsNext(entries: multiset<Entry>, jobs: JobTable, lo: real, hi: real, e: Entry)
    requires TicketsUnique(entries) && IsLeastReady(entries, jobs, lo, hi, e)
    ensures IsNextWithin(entries, jobs, lo, hi, e)
  {
    forall f | f in entries && IsReady(jobs, lo, f) && f != e ensures Less(e.key, f.key) {
      assert Leq(e.key, f.key) && !SameTicket(e, f);
    }
  }

  lemma NewTicketUnique(entries: multiset<Entry>, e: Entry)
    requires TicketsUnique(entries) && forall f :: f in entries ==> f.key.ticket < e.key.ticket
    ensures TicketsUnique(entries + multiset{e})
  {
    assert e !in entries;
  }

  lemma FewerEntries(before: multiset<Entry>, after: multiset<Entry>)
    requires TicketsUnique(before) && after <= before
    ensures TicketsUnique(after) && forall e :: e in after ==> e in before
  {
  }

  // Of the entries before, these are left and those that came off were not ready at the start.
  ghost predicate Popped(before: multiset<Entry>, left: multiset<Entry>, skipped: seq<Entry>, jobs: JobTable,
                         lo: real) {
    left + multiset(skipped) == before && NoneReady(multiset(skipped), jobs, lo)
  }

  lemma NonePopped(before: multiset<Entry>, jobs: JobTable, lo: real)
    ensures Popped(before, before, [], jobs, lo)
  {
  }

  lemma EntryOf(before: multiset<Entry>, left: multiset<Entry>, skipped: seq<Entry>, jobs: JobTable, lo: real, e: Entry)
    requires Popped(before, left, skipped, jobs, lo) && e in left
    ensures e in before
  {
  }

  lemma OneSkipped(before: multiset<Entry>, left: multiset<Entry>, left': multiset<Entry>, skipped: seq<Entry>,
                   e: Entry, jobs: JobTable, lo: real)
    requires Popped(before, left, skipped, jobs, lo) && left == left' + multiset{e} && !IsReady(jobs, lo, e)
    ensures Popped(before, left', skipped + [e], jobs, lo)
  {
  }

  lemma AllPopped(before: multiset<Entry>, left: multiset<Entry>, skipped: seq<Entry>, jobs: JobTable, lo: real)
    requires Popped(before, left, skipped, jobs, lo) && left == multiset{}
    ensures left + multiset(skipped) == before && NoneReady(before, jobs, lo)
  {
    assert multiset(skipped) == before;
  }

  // The first entry that comes off the heap ready is before all that were ready at the start.
  lemma FirstReadyIsLeast(before: multiset<Entry>, left: multiset<Entry>, left': multiset<Entry>, skipped: seq<Entry>,
                          e: Entry, jobs: JobTable, lo: real, hi: real)
    requires Popped(before, left, skipped, jobs, lo) && left == left' + multiset{e}
    requires (forall f :: f in left ==> Leq(e.key, f.key)) && IsReady(jobs, hi, e)
    ensures IsLeastReady(before, jobs, lo, hi, e) && left' + multiset(skipped) + multiset{e} == before
  {
    assert e in left && e in before;
    forall f | f in before && IsReady(jobs, lo, f) ensures Leq(e.key, f.key) {
      assert f in left || f in multiset(skipped);
    }
  }
}
