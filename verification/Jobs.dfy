// core/jobs.py: job states, the transition table and the priority names.

module Jobs {
  import opened Basics

  datatype JobState = Queued | Running | WaitingRetry | Completed | Failed | Cancelled {
    predicate Terminal() {
      this in {Completed, Failed, Cancelled}
    }
  }

  predicate MayBecome(before: JobState, after: JobState) {
    match before
    case Queued => after in {Running, Cancelled}
    case Running => after in {Completed, Failed, WaitingRetry, Cancelled}
    case WaitingRetry => after in {Running, Cancelled, Failed}
    case Completed => false
    case Failed => after == Queued
    case Cancelled => after == Queued
  }

  // The moves that a job can make.
  lemma MovesAre(before: JobState, after: JobState)
    ensures MayBecome(before, after) <==> (before, after) in {
      (Queued, Running), (Queued, Cancelled),
      (Running, Completed), (Running, Failed), (Running, WaitingRetry), (Running, Cancelled),
      (WaitingRetry, Running), (WaitingRetry, Cancelled), (WaitingRetry, Failed),
      (Failed, Queued), (Cancelled, Queued)}
    ensures before.Terminal() <==> before in {Completed, Failed, Cancelled}
  {
  }

  lemma QueuedAgainIff(before: JobState)
    ensures MayBecome(before, Queued) <==> before in {Failed, Cancelled}
  {
  }

  // A job completes only out of running, and nothing comes after that.
  lemma CompletedIsFinal(states: seq<JobState>, i: nat)
    requires forall k :: 0 < k < |states| ==> MayBecome(states[k - 1], states[k])
    requires 0 < i < |states| && states[i] == Completed
    ensures states[i - 1] == Running && i == |states| - 1
  {
    assert MayBecome(states[i - 1], states[i]);
    assert i + 1 < |states| ==> MayBecome(states[i], states[i + 1]);
  }

  // ---------- Priority names ----------

  function PriorityFromString(s: string): int {
    var name := Lower(s);
    if name == "urgent" then 0
    else if name == "high" then 1
    else if name == "normal" then 2
    else if name == "background" then 3
    else 2
  }

  function PriorityToString(v: int): string {
    if v == 0 then "urgent"
    else if v == 1 then "high"
    else if v == 2 then "normal"
    else if v == 3 then "background"
    else "normal"
  }

  // A priority survives being written as a name exactly when it is one of the four that have one.
  lemma PriorityRoundTrip(v: int)
    ensures PriorityFromString(PriorityToString(v)) == (if 0 <= v <= 3 then v else 2)
    ensures PriorityFromString(PriorityToString(v)) == v <==> 0 <= v <= 3
  {
    var name := PriorityToString(v);
    forall i | 0 <= i < |name| ensures LowerChar(name[i]) == name[i] {}
    assert Lower(name) == name;
  }

  lemma NamesWritten(v: int)
    ensures PriorityToString(0) == "urgent" && PriorityToString(1) == "high"
    ensures PriorityToString(3) == "background" && (v !in {0, 1, 3} ==> PriorityToString(v) == "normal")
  {
  }

  // The names, in any spelling, stand for the four priorities from urgent on; any other for normal.
  lemma NamedPriorities(name: string)
    ensures Lower(name) == "urgent" ==> PriorityFromString(name) == 0
    ensures Lower(name) == "high" ==> PriorityFromString(name) == 1
    ensures Lower(name) == "normal" ==> PriorityFromString(name) == 2
    ensures Lower(name) == "background" ==> PriorityFromString(name) == 3
    ensures Lower(name) !in {"urgent", "high", "background"} ==> PriorityFromString(name) == 2
    ensures PriorityFromString("URGENT") == 0
  {
    assert Lower("URGENT") == "urgent";
  }

  // What the queue needs to know about a job.
  datatype JobView = JobView(priority: int, scheduleAt: Option<real>, createdAt: real, status: JobState) {
    predicate Ready(now: real) {
      status == Queued && (scheduleAt.Some? ==> now >= scheduleAt.value)
    }
  }

  class Job {
    const id: string
    const priority: int
    const scheduleAt: Option<real>
    const createdAt: real
    var status: JobState

    constructor (id: string, priority: int, scheduleAt: Option<real>, createdAt: real, status: JobState)
      ensures this.id == id && View() == JobView(priority, scheduleAt, createdAt, status)
    {
      this.id, this.priority, this.scheduleAt, this.createdAt, this.status :=
        id, priority, scheduleAt, createdAt, status;
    }

    function View(): JobView
      reads this
    {
      JobView(priority, scheduleAt, createdAt, status)
    }

    // Moves to the new state if the table allows it; otherwise nothing changes.
    method Transition(after: JobState) returns (ok: bool)
      modifies this
      ensures ok == MayBecome(old(status), after)
      ensures View() == if ok then old(View()).(status := after) else old(View())
    {
      ok := MayBecome(status, after);
      if ok { status := after; }
    }
  }
}
