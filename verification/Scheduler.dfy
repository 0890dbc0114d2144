// core/scheduler.py with core/event_bus.py: event triggers. A trigger that fires submits a job; the
// submission emits "job.queued" and the firing emits "job.event_triggered", and both events come
// back to the scheduler, which listens to every event of the bus.

module Schedulers {
  import opened Sequences

  type TriggerId = nat

  const THROTTLE := 10.0

  // A job submitted by a trigger, with the time that the trigger was marked with.
  datatype Firing = Firing(trigger: TriggerId, at: real)

  // One look at a trigger: the clock is read to check the throttle and, if the trigger fires, read
  // again to mark it.
  datatype Look = Look(trigger: TriggerId, checked: real, at: real)

  // The triggers' marks, the jobs submitted and the looks taken so far.
  datatype Moment = Moment(marks: map<TriggerId, real>, submitted: seq<Firing>, looks: seq<Look>)

  // An unmarked trigger counts as fired at time 0.
  function Last(m: Moment, t: TriggerId): real {
    if t in m.marks then m.marks[t] else 0.0
  }

  predicate Passes(m: Moment, look: Look) {
    look.checked - Last(m, look.trigger) >= THROTTLE
  }

  function Fires(m: Moment, t: TriggerId, at: real): Moment {
    m.(marks := m.marks[t := at], submitted := m.submitted + [Firing(t, at)])
  }

  function Looked(m: Moment, look: Look): Moment {
    (if Passes(m, look) then Fires(m, look.trigger, look.at) else m).(looks := m.looks + [look])
  }

  // What a sequence of looks comes to. Nested cascades make no difference: a trigger is marked before
  // the events of its firing are handled, so looks do not overlap.
  function AfterLooks(looks: seq<Look>): Moment {
    if looks == [] then Moment(map[], [], [])
    else Looked(AfterLooks(looks[..|looks| - 1]), looks[|looks| - 1])
  }

  // The first look at a trigger: it fires from ten seconds after time 0 on.
  lemma FirstLook(look: Look)
    ensures AfterLooks([look]).submitted == if look.checked >= 10.0 then [Firing(look.trigger, look.at)] else []
  {
    assert [look][..0] == [];
    assert AfterLooks([]) == Moment(map[], [], []);
  }

  // A later one: from ten seconds after its last mark on, and otherwise nothing is marked.
  lemma NextLookFires(m: Moment, look: Look)
    requires look.trigger in m.marks
    ensures var m' := Looked(m, look);
      && (look.checked - m.marks[look.trigger] >= 10.0 ==>
            && m'.marks == m.marks[look.trigger := look.at]
            && m'.submitted == m.submitted + [Firing(look.trigger, look.at)])
      && (look.checked - m.marks[look.trigger] < 10.0 ==> m'.marks == m.marks && m'.submitted == m.submitted)
  {
  }

  // The second reading is not before the first.
  ghost predicate Sane(looks: seq<Look>) {
    forall look :: look in looks ==> look.checked <= look.at
  }

  // ---------- How far apart a trigger's firings are ----------

  // The times at which t fired.
  ghost function TimesOf(log: seq<Firing>, t: TriggerId): seq<real> {
    if log == [] then []
    else
      var rest, last := TimesOf(log[..|log| - 1], t), log[|log| - 1];
      if last.trigger == t then rest + [last.at] else rest
  }

  lemma TimesAppend(log: seq<Firing>, f: Firing, t: TriggerId)
    ensures TimesOf(log + [f], t) == if f.trigger == t then TimesOf(log, t) + [f.at] else TimesOf(log, t)
  {
    assert (log + [f])[..|log|] == log;
  }

  // Consecutive times are at least the throttle interval apart.
  ghost predicate Spaced(times: seq<real>) {
    forall i :: 0 < i < |times| ==> times[i] - times[i - 1] >= 10.0
  }

  // Every trigger's firings are spaced, and its mark is the last of them.
  ghost predicate Throttles(m: Moment) {
    forall t {:trigger TimesOf(m.submitted, t)} ::
      var times := TimesOf(m.submitted, t);
      Spaced(times) && (times != [] ==> Last(m, t) == times[|times| - 1])
  }

  lemma FiresThrottles(m: Moment, t: TriggerId, at: real, looks: seq<Look>)
    requires Throttles(m) && at - Last(m, t) >= THROTTLE
    ensures Throttles(Fires(m, t, at).(looks := looks))
  {
    var m' := Fires(m, t, at).(looks := looks);
    forall u ensures Spaced(TimesOf(m'.submitted, u))
      ensures TimesOf(m'.submitted, u) != [] ==> Last(m', u) == TimesOf(m'.submitted, u)[|TimesOf(m'.submitted, u)| - 1]
    {
      TimesAppend(m.submitted, Firing(t, at), u);
      assert Spaced(TimesOf(m.submitted, u));
    }
  }

  lemma {:induction false} LooksThrottle(looks: seq<Look>)
    requires Sane(looks)
    ensures Throttles(AfterLooks(looks)) && AfterLooks(looks).looks == looks
  {
    if looks != [] {
      var front, last := looks[..|looks| - 1], looks[|looks| - 1];
      assert looks == front + [last];
      LooksThrottle(front);
      var m := AfterLooks(front);
      if Passes(m, last) {
        FiresThrottles(m, last.trigger, last.at, looks);
      } else {
        forall t
          ensures TimesOf(Looked(m, last).submitted, t) == TimesOf(m.submitted, t)
          ensures Last(Looked(m, last), t) == Last(m, t)
        {
        }
      }
    }
  }

  lemma {:induction false} SpacedApart(times: seq<real>, i: nat, j: nat)
    requires Spaced(times) && i <= j < |times|
    ensures times[j] - times[i] >= 10.0 * (j - i) as real
  {
    if i < j {
      SpacedApart(times, i, j - 1);
      assert times[j] - times[j - 1] >= THROTTLE;
      assert THROTTLE * (j - i) as real == THROTTLE * (j - 1 - i) as real + THROTTLE;
    }
  }

  // How many of the times lie within the window.
  ghost function Within(times: seq<real>, from: real, to: real): nat {
    if times == [] then 0
    else Within(times[..|times| - 1], from, to) + if from <= times[|times| - 1] <= to then 1 else 0
  }

  // The last of the times within the window is late enough for all of them.
  lemma {:induction false} WithinNeeds(times: seq<real>, from: real, to: real) returns (i: nat)
    requires Spaced(times) && Within(times, from, to) > 0
    ensures i < |times| && from <= times[i] <= to
    ensures times[i] - from >= THROTTLE * (Within(times, from, to) - 1) as real
  {
    var front, last := times[..|times| - 1], times[|times| - 1];
    if Within(front, from, to) > 0 {
      i := WithinNeeds(front, from, to);
      if from <= last <= to {
        SpacedApart(times, i, |times| - 1);
        var before := Within(front, from, to);
        assert last - times[i] >= THROTTLE * (|times| - 1 - i) as real >= THROTTLE;
        assert THROTTLE * before as real == THROTTLE * (before - 1) as real + THROTTLE;
        i := |times| - 1;
      }
    } else {
      i := |times| - 1;
    }
  }

  // However the looks come about and however long the cascades take, at most 1 + floor(T / 10) of a
  // trigger's firings lie in any window of T seconds.
  lemma FiresPerWindow(looks: seq<Look>, t: TriggerId, from: real, to: real)
    requires Sane(looks) && from <= to
    ensures Within(TimesOf(AfterLooks(looks).submitted, t), from, to) <= 1 + ((to - from) / 10.0).Floor
  {
    var times := TimesOf(AfterLooks(looks).submitted, t);
    LooksThrottle(looks);
    assert Spaced(times);
    var count := Within(times, from, to);
    if count > 0 {
      var i := WithinNeeds(times, from, to);
      assert to - from >= THROTTLE * (count - 1) as real;
      assert (to - from) / THROTTLE >= (count - 1) as real;
    }
  }

  // m is what its looks come to.
  ghost predicate Recorded(m: Moment) {
    Sane(m.looks) && m == AfterLooks(m.looks)
  }

  lemma RecordedLook(m: Moment, look: Look)
    requires Recorded(m) && look.checked <= look.at
    ensures Recorded(Looked(m, look))
  {
    var looks := m.looks + [look];
    assert looks[..|m.looks|] == m.looks;
  }

  // ---------- A cascade, look by look ----------

  // The readings of the clock in the cascade of one outer event.
  type Clock = nat -> real

  ghost predicate Monotone(clock: Clock) {
    forall i: nat, j: nat {:trigger clock(i), clock(j)} :: i <= j ==> clock(i) <= clock(j)
  }

  // The triggers still to be looked at, those of the innermost event first, and the number of
  // readings taken.
  datatype Cascade = Cascade(m: Moment, todo: seq<TriggerId>, tick: nat)

  function NextLook(c: Cascade, clock: Clock): Look
    requires c.todo != []
  {
    var t, checked := c.todo[0], clock(c.tick);
    Look(t, checked, if checked - Last(c.m, t) >= THROTTLE then clock(c.tick + 1) else checked)
  }

  // One look. A trigger that fires is marked with a second reading, and the listeners of the two
  // events that a firing causes come next.
  function Step(c: Cascade, clock: Clock, consequent: seq<TriggerId>): Cascade {
    if c.todo == [] then c
    else
      var look, rest := NextLook(c, clock), c.todo[1..];
      if Passes(c.m, look) then Cascade(Looked(c.m, look), consequent + rest, c.tick + 2)
      else Cascade(Looked(c.m, look), rest, c.tick + 1)
  }

  predicate DueNow(c: Cascade, clock: Clock)
    requires c.todo != []
  {
    clock(c.tick) - Last(c.m, c.todo[0]) >= THROTTLE
  }

  // What one look changes.
  lemma StepGives(c: Cascade, clock: Clock, consequent: seq<TriggerId>)
    requires c.todo != []
    ensures var d, t := Step(c, clock, consequent), c.todo[0];
      && (DueNow(c, clock) ==>
            && d.todo == consequent + c.todo[1..] && d.tick == c.tick + 2
            && d.m.submitted == c.m.submitted + [Firing(t, clock(c.tick + 1))] && Last(d.m, t) == clock(c.tick + 1))
      && (!DueNow(c, clock) ==>
            d.todo == c.todo[1..] && d.tick == c.tick + 1 && d.m.submitted == c.m.submitted && d.m.marks == c.m.marks)
      && (forall u :: u != t ==> Last(d.m, u) == Last(c.m, u))
      && d.m.looks == c.m.looks + [NextLook(c, clock)]
  {
  }

  lemma StepRecorded(c: Cascade, clock: Clock, consequent: seq<TriggerId>)
    requires Recorded(c.m) && c.todo != [] && clock(c.tick) <= clock(c.tick + 1)
    ensures Recorded(Step(c, clock, consequent).m)
  {
    hide Recorded;
    RecordedLook(c.m, NextLook(c, clock));
  }

  lemma StepTimes(c: Cascade, clock: Clock, consequent: seq<TriggerId>, t: TriggerId)
    requires c.todo != []
    ensures TimesOf(Step(c, clock, consequent).m.submitted, t) ==
      TimesOf(c.m.submitted, t) + if DueNow(c, clock) && t == c.todo[0] then [clock(c.tick + 1)] else []
  {
    StepGives(c, clock, consequent);
    hide Step;
    if DueNow(c, clock) { TimesAppend(c.m.submitted, Firing(c.todo[0], clock(c.tick + 1)), t); }
  }

  function After(c: Cascade, clock: Clock, consequent: seq<TriggerId>, n: nat): Cascade {
    if n == 0 then c else Step(After(c, clock, consequent, n - 1), clock, consequent)
  }

  ghost predicate EndsBy(c: Cascade, clock: Clock, consequent: seq<TriggerId>, n: nat) {
    After(c, clock, consequent, n).todo == []
  }

  ghost predicate Ends(c: Cascade, clock: Clock, consequent: seq<TriggerId>) {
    exists n: nat :: EndsBy(c, clock, consequent, n)
  }

  ghost predicate Leads(c: Cascade, d: Cascade, clock: Clock, consequent: seq<TriggerId>, n: nat) {
    After(c, clock, consequent, n) == d
  }

  lemma {:induction false} LeadsOn(c: Cascade, d: Cascade, e: Cascade, clock: Clock, consequent: seq<TriggerId>,
                                   j: nat, k: nat)
    requires Leads(c, d, clock, consequent, j) && Leads(d, e, clock, consequent, k)
    ensures Leads(c, e, clock, consequent, j + k)
    decreases k
  {
    if k > 0 { LeadsOn(c, d, After(d, clock, consequent, k - 1), clock, consequent, j, k - 1); }
  }

  lemma LeavesSteps(c: Cascade, d: Cascade, clock: Clock, consequent: seq<TriggerId>, n: nat, k: nat)
    requires EndsBy(c, clock, consequent, n) && Leads(c, d, clock, consequent, k) && k <= n
    ensures EndsBy(d, clock, consequent, n - k)
  {
    LeadsOn(c, d, After(d, clock, consequent, n - k), clock, consequent, k, n - k);
  }

  lemma StaysAt(c: Cascade, clock: Clock, consequent: seq<TriggerId>)
    ensures Leads(c, c, clock, consequent, 0)
  {
  }

  lemma HeadAndRest(list: seq<TriggerId>, i: nat, rest: seq<TriggerId>)
    requires i < |list|
    ensures list[i..] + rest == [list[i]] + (list[i + 1..] + rest)
  {
  }

  lemma FirstStep(c: Cascade, clock: Clock, consequent: seq<TriggerId>, n: nat)
    requires EndsBy(c, clock, consequent, n) && c.todo != []
    ensures n > 0 && Leads(c, Step(c, clock, consequent), clock, consequent, 1)
    ensures EndsBy(Step(c, clock, consequent), clock, consequent, n - 1)
  {
    assert After(c, clock, consequent, 0) == c;
    LeavesSteps(c, Step(c, clock, consequent), clock, consequent, n, 1);
  }

  // ---------- Exactly when every cascade of an event ends ----------

  // Where nothing listens to the events of a firing, every trigger is looked at once ...
  lemma {:induction false} QuietCascade(c: Cascade, clock: Clock, n: nat)
    requires n <= |c.todo|
    ensures After(c, clock, [], n).todo == c.todo[n..]
  {
    if n > 0 {
      var before := After(c, clock, [], n - 1);
      QuietCascade(c, clock, n - 1);
      StepGives(before, clock, []);
      hide Step;
      assert [] + before.todo[1..] == c.todo[n..];
    }
  }

  // ... and fires at most once.
  lemma {:induction false} QuietFires(c: Cascade, clock: Clock, n: nat, t: TriggerId)
    requires n <= |c.todo| && NoDup(c.todo)
    ensures |TimesOf(After(c, clock, [], n).m.submitted, t)|
         <= |TimesOf(c.m.submitted, t)| + if t in c.todo[..n] then 1 else 0
  {
    hide Step, NoDup, TimesOf, DueNow;
    if n > 0 {
      var before := After(c, clock, [], n - 1);
      QuietFires(c, clock, n - 1, t);
      QuietCascade(c, clock, n - 1);
      NextInFront(c.todo, n, t);
      assert After(c, clock, [], n) == Step(before, clock, []);
      hide After;
      assert before.todo[0] == c.todo[n - 1];
      StepTimes(before, clock, [], t);
    }
  }

  lemma NextInFront(s: seq<TriggerId>, n: nat, t: TriggerId)
    requires 0 < n <= |s| && NoDup(s)
    ensures t in s[..n] <==> t in s[..n - 1] || t == s[n - 1]
    ensures s[n - 1] !in s[..n - 1]
  {
    NoDupAt(s, n - 1);
    assert s[..n] == s[..n - 1] + [s[n - 1]];
  }

  lemma Latest(marks: map<TriggerId, real>, from: real) returns (base: real)
    ensures base >= from && base >= 0.0 && forall t :: t in marks ==> marks[t] <= base
    decreases |marks|
  {
    if marks == map[] {
      base := if from >= 0.0 then from else 0.0;
    } else {
      var t :| t in marks;
      base := Latest(marks - {t}, from);
      if base < marks[t] { base := marks[t]; }
      forall u | u in marks ensures marks[u] <= base { if u != t { assert u in marks - {t}; } }
    }
  }

  function SlowClock(base: real): Clock {
    (i: nat) => base + 10.0 * (i + 1) as real
  }

  // On a clock that moves on by an interval from reading to reading, every look fires, and the next
  // listeners are looked at.
  lemma {:induction false} SlowCascadeGoesOn(m: Moment, todo: seq<TriggerId>, consequent: seq<TriggerId>, base: real,
                                             n: nat)
    requires todo != [] && consequent != [] && base >= 0.0 && forall t :: t in m.marks ==> m.marks[t] <= base
    ensures var c := After(Cascade(m, todo, 0), SlowClock(base), consequent, n);
      && c.todo != [] && |c.m.submitted| == |m.submitted| + n && c.tick == 2 * n
      && forall t :: Last(c.m, t) <= base + THROTTLE * c.tick as real
  {
    if n > 0 {
      var clock := SlowClock(base);
      SlowCascadeGoesOn(m, todo, consequent, base, n - 1);
      var c := After(Cascade(m, todo, 0), clock, consequent, n - 1);
      StepGives(c, clock, consequent);
      hide Step;
      Ticks(base, c.tick);
      assert Last(c.m, c.todo[0]) <= base + THROTTLE * c.tick as real;
    }
  }

  lemma Ticks(base: real, k: nat)
    ensures SlowClock(base)(k) == base + THROTTLE * k as real + THROTTLE
    ensures SlowClock(base)(k + 1) == base + THROTTLE * (k + 2) as real == SlowClock(base)(k) + THROTTLE
  {
    assert (k + 1) as real == k as real + 1.0 && (k + 2) as real == k as real + 2.0;
  }

  lemma SlowClockIsMonotone(base: real)
    ensures Monotone(SlowClock(base)) && SlowClock(base)(0) >= base
  {
    forall i: nat, j: nat | i <= j ensures SlowClock(base)(i) <= SlowClock(base)(j) {
      assert THROTTLE * (i + 1) as real <= THROTTLE * (j + 1) as real;
    }
  }

  // Whatever was marked before, the cascade ends on every clock exactly when nothing listens to the
  // event, or nothing to the two events of a firing.
  lemma EndsIff(m: Moment, todo: seq<TriggerId>, consequent: seq<TriggerId>, from: real)
    ensures (forall clock: Clock {:trigger Ends(Cascade(m, todo, 0), clock, consequent)} ::
               Monotone(clock) && clock(0) >= from ==> Ends(Cascade(m, todo, 0), clock, consequent))
            <==> todo == [] || consequent == []
  {
    var c := Cascade(m, todo, 0);
    if todo != [] && consequent != [] {
      var base := Latest(m.marks, from);
      SlowClockIsMonotone(base);
      forall n: nat ensures !EndsBy(c, SlowClock(base), consequent, n) {
        SlowCascadeGoesOn(m, todo, consequent, base, n);
      }
      assert !Ends(c, SlowClock(base), consequent);
    } else {
      forall clock: Clock ensures Ends(c, clock, consequent) {
        if consequent == [] { QuietCascade(c, clock, |todo|); }
        assert EndsBy(c, clock, consequent, |todo|);
      }
    }
  }

  // ---------- Cascades that end because time does not pass ----------

  // What a cascade keeps as long as its readings lie between lo and hi.
  ghost predicate Moved(before: Moment, after: Moment, among: set<TriggerId>, lo: real, hi: real) {
    && Recorded(after) && before.submitted <= after.submitted && before.looks <= after.looks
    && (forall t :: Last(before, t) <= Last(after, t))
    && forall k :: |before.submitted| <= k < |after.submitted| ==>
         after.submitted[k].trigger in among && lo <= after.submitted[k].at <= hi
  }

  ghost predicate ReadsWithin(clock: Clock, from: nat, to: nat, lo: real, hi: real) {
    forall k :: from <= k < to ==> lo <= clock(k) <= hi
  }

  ghost predicate Moving(before: Moment, c: Cascade, among: set<TriggerId>, lo: real, hi: real) {
    Moved(before, c.m, among, lo, hi) && Elems(c.todo) <= among
  }

  lemma StepMoves(before: Moment, c: Cascade, clock: Clock, consequent: seq<TriggerId>, among: set<TriggerId>,
                  from: nat, lo: real, hi: real)
    requires Moving(before, c, among, lo, hi) && Monotone(clock) && Elems(consequent) <= among
    requires from <= c.tick && ReadsWithin(clock, from, Step(c, clock, consequent).tick, lo, hi)
    ensures Moving(before, Step(c, clock, consequent), among, lo, hi)
  {
    if c.todo != [] {
      StepRecorded(c, clock, consequent);
      StepGives(c, clock, consequent);
      hide Step, Recorded;
      assert c.todo[0] in Elems(c.todo);
      TodoAmong(c.todo, consequent, among);
    }
  }

  lemma TodoAmong(todo: seq<TriggerId>, consequent: seq<TriggerId>, among: set<TriggerId>)
    requires todo != [] && Elems(todo) <= among && Elems(consequent) <= among
    ensures Elems(todo[1..]) <= among && Elems(consequent + todo[1..]) <= among
  {
    forall t | t in consequent + todo[1..] ensures t in among {
      assert t in Elems(consequent) || t in Elems(todo);
    }
  }

  lemma NoneMoved(c: Cascade, consequent: seq<TriggerId>, lo: real, hi: real)
    requires Recorded(c.m)
    ensures Moving(c.m, c, Elems(c.todo) + Elems(consequent), lo, hi)
  {
    hide Recorded;
  }

  lemma ReadsBefore(clock: Clock, from: nat, mid: nat, to: nat, lo: real, hi: real)
    requires ReadsWithin(clock, from, to, lo, hi) && mid <= to
    ensures ReadsWithin(clock, from, mid, lo, hi)
  {
  }

  lemma {:induction false} Moves(c: Cascade, clock: Clock, consequent: seq<TriggerId>, n: nat, lo: real, hi: real)
    requires Recorded(c.m) && Monotone(clock)
    requires ReadsWithin(clock, c.tick, After(c, clock, consequent, n).tick, lo, hi)
    ensures Moving(c.m, After(c, clock, consequent, n), Elems(c.todo) + Elems(consequent), lo, hi)
  {
    hide Step, Moving, Recorded, Monotone, ReadsWithin, Elems;
    if n == 0 {
      NoneMoved(c, consequent, lo, hi);
    } else {
      var d := After(c, clock, consequent, n - 1);
      TicksGrow(c, clock, consequent, n - 1, n);
      assert After(c, clock, consequent, n) == Step(d, clock, consequent);
      hide After;
      ReadsBefore(clock, c.tick, d.tick, Step(d, clock, consequent).tick, lo, hi);
      Moves(c, clock, consequent, n - 1, lo, hi);
      StepMoves(c.m, d, clock, consequent, Elems(c.todo) + Elems(consequent), c.tick, lo, hi);
    }
  }

  lemma {:induction false} TicksGrow(c: Cascade, clock: Clock, consequent: seq<TriggerId>, j: nat, n: nat)
    requires j <= n
    ensures c.tick <= After(c, clock, consequent, j).tick <= After(c, clock, consequent, n).tick <= c.tick + 2 * n
    decreases n
  {
    if n > 0 {
      if j < n { TicksGrow(c, clock, consequent, j, n - 1); } else { TicksGrow(c, clock, consequent, n - 1, n - 1); }
      var d := After(c, clock, consequent, n - 1);
      if d.todo != [] { StepGives(d, clock, consequent); }
      hide Step;
    }
  }

  // The most that a trigger can fire within a time.
  function FireLimit(time: real): nat
    requires time >= 0.0
  {
    1 + (time / 10.0).Floor
  }

  lemma {:induction false} TimesWithin(a: seq<Firing>, b: seq<Firing>, t: TriggerId, lo: real, hi: real)
    requires forall k :: 0 <= k < |b| ==> lo <= b[k].at <= hi
    ensures |TimesOf(a + b, t)| == |TimesOf(a, t)| + |TimesOf(b, t)|
    ensures Within(TimesOf(a + b, t), lo, hi) >= |TimesOf(b, t)|
  {
    if b == [] {
      assert a + b == a;
    } else {
      var front, last := b[..|b| - 1], b[|b| - 1];
      TimesWithin(a, front, t, lo, hi);
      assert a + b == a + front + [last] && b == front + [last];
      TimesAppend(a + front, last, t);
      TimesAppend(front, last, t);
      var times := TimesOf(a + front, t);
      assert (times + [last.at])[..|times|] == times;
    }
  }

  // In a cascade no trigger fires more often than its time allows.
  lemma FiresInTime(before: Moment, after: Moment, among: set<TriggerId>, lo: real, hi: real, t: TriggerId)
    requires Moved(before, after, among, lo, hi) && lo <= hi
    ensures var added := after.submitted[|before.submitted|..];
      && |TimesOf(after.submitted, t)| == |TimesOf(before.submitted, t)| + |TimesOf(added, t)|
      && |TimesOf(added, t)| <= FireLimit(hi - lo)
  {
    var added := after.submitted[|before.submitted|..];
    assert after.submitted == before.submitted + added;
    assert forall k :: 0 <= k < |added| ==> added[k] == after.submitted[|before.submitted| + k];
    TimesWithin(before.submitted, added, t, lo, hi);
    FiresPerWindow(after.looks, t, lo, hi);
  }

  function Others(log: seq<Firing>, t: TriggerId): seq<Firing> {
    if log == [] then []
    else
      var rest, last := Others(log[..|log| - 1], t), log[|log| - 1];
      if last.trigger == t then rest else rest + [last]
  }

  lemma {:induction false} OthersGive(log: seq<Firing>, t: TriggerId, among: set<TriggerId>, u: TriggerId)
    requires forall f :: f in log ==> f.trigger in among
    ensures |log| == |TimesOf(log, t)| + |Others(log, t)|
    ensures forall f :: f in Others(log, t) ==> f.trigger in among - {t}
    ensures |TimesOf(Others(log, t), u)| <= |TimesOf(log, u)|
  {
    if log != [] {
      var front, last := log[..|log| - 1], log[|log| - 1];
      assert last in log;
      OthersGive(front, t, among, u);
      TimesAppend(Others(front, t), last, u);
    }
  }

  // As many firings as there are triggers, times the most of each.
  lemma {:induction false} FiringsOfAll(log: seq<Firing>, among: set<TriggerId>, limit: nat)
    requires forall f :: f in log ==> f.trigger in among
    requires forall t :: |TimesOf(log, t)| <= limit
    ensures |log| <= |among| * limit
    decreases |among|
  {
    if log != [] {
      var t := log[0].trigger;
      assert log[0] in log;
      forall u ensures |TimesOf(Others(log, t), u)| <= limit { OthersGive(log, t, among, u); }
      OthersGive(log, t, among, t);
      FiringsOfAll(Others(log, t), among - {t}, limit);
      OnceMore(|among - {t}|, limit);
    }
  }

  lemma OnceMore(n: nat, limit: nat)
    ensures (n + 1) * limit == n * limit + limit
  {
  }

  function Product(a: nat, b: nat): (p: nat)
    ensures p == a * b
  {
    a * b
  }

  // Each look takes one trigger off and each firing puts the listeners of its events on.
  ghost predicate Balanced(c: Cascade, d: Cascade, consequent: seq<TriggerId>, n: nat) {
    && |d.m.submitted| >= |c.m.submitted|
    && (d.todo != [] ==> |d.todo| + n == |c.todo| + Product(|d.m.submitted| - |c.m.submitted|, |consequent|))
  }

  lemma StepBalanced(c: Cascade, d: Cascade, clock: Clock, consequent: seq<TriggerId>, n: nat)
    requires Balanced(c, d, consequent, n)
    ensures Balanced(c, Step(d, clock, consequent), consequent, n + 1)
  {
    if d.todo != [] {
      StepGives(d, clock, consequent);
      hide Step;
      OnceMore(|d.m.submitted| - |c.m.submitted|, |consequent|);
    }
  }

  lemma {:induction false} LooksCount(c: Cascade, clock: Clock, consequent: seq<TriggerId>, n: nat)
    ensures Balanced(c, After(c, clock, consequent, n), consequent, n)
  {
    if n > 0 {
      LooksCount(c, clock, consequent, n - 1);
      hide Balanced, Step;
      StepBalanced(c, After(c, clock, consequent, n - 1), clock, consequent, n - 1);
    }
  }

  lemma NothingLeft(c: Cascade, d: Cascade, consequent: seq<TriggerId>, n: nat, most: nat)
    requires Balanced(c, d, consequent, n) && n == |c.todo| + Product(most, |consequent|)
    requires |d.m.submitted| - |c.m.submitted| <= most
    ensures d.todo == []
  {
    if d.todo != [] { ProductGrows(|d.m.submitted| - |c.m.submitted|, most, |consequent|); }
  }

  lemma ProductGrows(a: nat, b: nat, k: nat)
    requires a <= b
    ensures Product(a, k) <= Product(b, k)
  {
  }

  // A cascade lasts no longer than this many looks while no more than the time passes.
  ghost function LookLimit(todo: seq<TriggerId>, consequent: seq<TriggerId>, time: real): nat
    requires time >= 0.0
  {
    |todo| + Product(FiringLimit(todo, consequent, time), |consequent|)
  }

  // The most that all triggers can fire within the time.
  ghost function FiringLimit(todo: seq<TriggerId>, consequent: seq<TriggerId>, time: real): nat
    requires time >= 0.0
  {
    Product(|Elems(todo) + Elems(consequent)|, FireLimit(time))
  }

  lemma FiringsInTime(before: Moment, after: Moment, among: set<TriggerId>, lo: real, hi: real)
    requires Moved(before, after, among, lo, hi) && lo <= hi
    ensures |after.submitted| - |before.submitted| <= Product(|among|, FireLimit(hi - lo))
  {
    var added := after.submitted[|before.submitted|..];
    forall t ensures |TimesOf(added, t)| <= FireLimit(hi - lo) { FiresInTime(before, after, among, lo, hi, t); }
    forall f | f in added ensures f.trigger in among {
      var k :| 0 <= k < |added| && added[k] == f;
      assert added[k] == after.submitted[|before.submitted| + k];
    }
    hide FireLimit;
    FiringsOfAll(added, among, FireLimit(hi - lo));
  }

  lemma MovesWithin(c: Cascade, clock: Clock, consequent: seq<TriggerId>, n: nat, hi: real)
    requires Recorded(c.m) && Monotone(clock) && clock(c.tick + 2 * n) <= hi
    ensures Moved(c.m, After(c, clock, consequent, n).m, Elems(c.todo) + Elems(consequent), clock(c.tick), hi)
  {
    TicksGrow(c, clock, consequent, n, n);
    assert ReadsWithin(clock, c.tick, After(c, clock, consequent, n).tick, clock(c.tick), hi);
    Moves(c, clock, consequent, n, clock(c.tick), hi);
  }

  // Whatever listens to what, a cascade ends on every clock that stays within some time for long
  // enough: one that goes on for ever takes for ever.
  lemma EndsInTime(c: Cascade, clock: Clock, consequent: seq<TriggerId>, time: real, n: nat)
    requires Recorded(c.m) && Monotone(clock) && time >= 0.0
    requires n == |c.todo| + |Elems(c.todo) + Elems(consequent)| * (1 + (time / 10.0).Floor) * |consequent|
    requires clock(c.tick + 2 * n) <= clock(c.tick) + time
    ensures EndsBy(c, clock, consequent, n)
  {
    assert n == LookLimit(c.todo, consequent, time);
    EndsWithin(c, clock, consequent, time, n);
  }

  lemma EndsWithin(c: Cascade, clock: Clock, consequent: seq<TriggerId>, time: real, n: nat)
    requires Recorded(c.m) && Monotone(clock) && time >= 0.0 && n == LookLimit(c.todo, consequent, time)
    requires clock(c.tick + 2 * n) <= clock(c.tick) + time
    ensures EndsBy(c, clock, consequent, n)
  {
    FiringsWithin(c, clock, consequent, time, n);
    LooksCount(c, clock, consequent, n);
    hide Balanced, Product, FiringLimit, After;
    NothingLeft(c, After(c, clock, consequent, n), consequent, n, FiringLimit(c.todo, consequent, time));
  }

  lemma FiringsWithin(c: Cascade, clock: Clock, consequent: seq<TriggerId>, time: real, n: nat)
    requires Recorded(c.m) && Monotone(clock) && time >= 0.0 && clock(c.tick + 2 * n) <= clock(c.tick) + time
    ensures |After(c, clock, consequent, n).m.submitted| - |c.m.submitted| <= FiringLimit(c.todo, consequent, time)
    ensures FiringLimit(c.todo, consequent, time) ==
      |Elems(c.todo) + Elems(consequent)| * (1 + (time / 10.0).Floor)
  {
    var lo := clock(c.tick);
    MovesWithin(c, clock, consequent, n, lo + time);
    assert lo + time - lo == time;
    hide After, Moved, Monotone, Recorded, Elems, Product;
    FiringsInTime(c.m, After(c, clock, consequent, n).m, Elems(c.todo) + Elems(consequent), lo, lo + time);
  }

  // ---------- What becomes of the triggers ----------

  // The triggers that fired between two moments.
  ghost function Gained(before: Moment, after: Moment): set<TriggerId> {
    set k | |before.submitted| <= k < |after.submitted| :: after.submitted[k].trigger
  }

  // What becomes of trigger t when those in gained fire, once each, within the throttle interval that
  // begins at start.
  ghost predicate FiredAt(before: Moment, after: Moment, gained: set<TriggerId>, start: real, t: TriggerId) {
    if t in gained then
      && |TimesOf(after.submitted, t)| == |TimesOf(before.submitted, t)| + 1
      && start <= Last(after, t) < start + 10.0 && Last(after, t) - Last(before, t) >= 10.0
    else
      TimesOf(after.submitted, t) == TimesOf(before.submitted, t) && Last(after, t) == Last(before, t)
  }

  ghost predicate Fired(before: Moment, after: Moment, gained: set<TriggerId>, start: real) {
    && |after.submitted| == |before.submitted| + |gained|
    && forall t {:trigger FiredAt(before, after, gained, start, t)} :: FiredAt(before, after, gained, start, t)
  }

  lemma FiresOnce(before: Moment, c: Cascade, clock: Clock, consequent: seq<TriggerId>, start: real)
    requires Fired(before, c.m, Gained(before, c.m), start) && before.submitted <= c.m.submitted
    requires c.todo != [] && start <= clock(c.tick) <= clock(c.tick + 1)
    requires DueNow(c, clock) ==> clock(c.tick + 1) < start + THROTTLE
    ensures var d := Step(c, clock, consequent); Fired(before, d.m, Gained(before, d.m), start)
  {
    var d, gained := Step(c, clock, consequent), Gained(before, c.m);
    StepGives(c, clock, consequent);
    if DueNow(c, clock) {
      var t := c.todo[0];
      assert FiredAt(before, c.m, gained, start, t);
      assert t !in gained;
      GainedMore(before, c.m, d.m, Firing(t, clock(c.tick + 1)));
      forall u ensures FiredAt(before, d.m, gained + {t}, start, u) {
        assert FiredAt(before, c.m, gained, start, u);
        StepTimes(c, clock, consequent, u);
        hide Step;
      }
    } else {
      assert Gained(before, d.m) == gained;
      forall u ensures FiredAt(before, d.m, gained, start, u) {
        assert FiredAt(before, c.m, gained, start, u);
      }
    }
  }

  lemma GainedMore(before: Moment, m: Moment, after: Moment, f: Firing)
    requires before.submitted <= m.submitted && after.submitted == m.submitted + [f]
    ensures Gained(before, after) == Gained(before, m) + {f.trigger}
  {
    forall t | t in Gained(before, m) ensures t in Gained(before, after) {
      var k :| |before.submitted| <= k < |m.submitted| && m.submitted[k].trigger == t;
      assert after.submitted[k] == m.submitted[k];
    }
    assert after.submitted[|m.submitted|] == f;
  }

  // Since before no trigger fired twice.
  ghost predicate OnceEach(before: Moment, after: Moment, start: real) {
    before.submitted <= after.submitted && Fired(before, after, Gained(before, after), start)
  }

  lemma StillOnceEach(before: Moment, c: Cascade, clock: Clock, consequent: seq<TriggerId>, from: nat, lo: real,
                      hi: real)
    requires OnceEach(before, c.m, lo)
    requires Monotone(clock) && lo <= hi < lo + THROTTLE && from <= c.tick
    requires ReadsWithin(clock, from, Step(c, clock, consequent).tick, lo, hi)
    ensures OnceEach(before, Step(c, clock, consequent).m, lo)
  {
    if c.todo != [] {
      StepGives(c, clock, consequent);
      hide Fired, Gained;
      FiresOnce(before, c, clock, consequent, lo);
    }
  }

  // While the cascade takes less than an interval no trigger fires twice.
  lemma {:induction false} FiredInTime(c: Cascade, clock: Clock, consequent: seq<TriggerId>, n: nat, lo: real, hi: real)
    requires Monotone(clock) && lo <= hi < lo + THROTTLE
    requires ReadsWithin(clock, c.tick, After(c, clock, consequent, n).tick, lo, hi)
    ensures OnceEach(c.m, After(c, clock, consequent, n).m, lo)
  {
    hide Step, Monotone, OnceEach, ReadsWithin;
    if n == 0 {
      NoneFired(c.m, lo);
    } else {
      var d := After(c, clock, consequent, n - 1);
      TicksGrow(c, clock, consequent, n - 1, n);
      assert After(c, clock, consequent, n) == Step(d, clock, consequent);
      hide After;
      ReadsBefore(clock, c.tick, d.tick, Step(d, clock, consequent).tick, lo, hi);
      FiredInTime(c, clock, consequent, n - 1, lo, hi);
      StillOnceEach(c.m, d, clock, consequent, c.tick, lo, hi);
    }
  }

  lemma NoneFired(m: Moment, start: real)
    ensures OnceEach(m, m, start)
  {
    assert Gained(m, m) == {};
  }

  // Trigger t has yet to be looked at, or was marked less than the throttle interval before start, or later.
  ghost predicate Handled(c: Cascade, t: TriggerId, start: real) {
    t in c.todo || Last(c.m, t) > start - 10.0
  }

  ghost predicate Throttled(m: Moment, ts: seq<TriggerId>, start: real) {
    forall t :: t in ts ==> Last(m, t) > start - 10.0
  }

  lemma StepHandles(c: Cascade, clock: Clock, consequent: seq<TriggerId>, start: real, t: TriggerId)
    requires c.todo != [] && start <= clock(c.tick) <= clock(c.tick + 1)
    ensures Handled(c, t, start) ==> Handled(Step(c, clock, consequent), t, start)
    ensures DueNow(c, clock) && t in consequent ==> Handled(Step(c, clock, consequent), t, start)
  {
    StepGives(c, clock, consequent);
    hide Step;
    assert c.todo == [c.todo[0]] + c.todo[1..];
  }

  // Trigger t is handled if it listens to the event, and also if it listens to a firing and any
  // trigger fired since before.
  ghost predicate HandledSince(before: Cascade, c: Cascade, consequent: seq<TriggerId>, start: real, t: TriggerId) {
    && |before.m.submitted| <= |c.m.submitted| && (t in before.todo ==> Handled(c, t, start))
    && (t in consequent && |c.m.submitted| > |before.m.submitted| ==> Handled(c, t, start))
  }

  lemma StepStillHandles(before: Cascade, c: Cascade, clock: Clock, consequent: seq<TriggerId>, start: real,
                         t: TriggerId)
    requires HandledSince(before, c, consequent, start, t) && Monotone(clock) && start <= clock(c.tick)
    ensures HandledSince(before, Step(c, clock, consequent), consequent, start, t)
  {
    if c.todo != [] {
      StepGives(c, clock, consequent);
      StepHandles(c, clock, consequent, start, t);
      hide Step, Handled;
    }
  }

  lemma {:induction false} AllHandled(c: Cascade, clock: Clock, consequent: seq<TriggerId>, n: nat, t: TriggerId)
    requires Monotone(clock)
    ensures HandledSince(c, After(c, clock, consequent, n), consequent, clock(c.tick), t)
  {
    if n > 0 {
      TicksGrow(c, clock, consequent, n - 1, n);
      hide Step, HandledSince;
      AllHandled(c, clock, consequent, n - 1, t);
      StepStillHandles(c, After(c, clock, consequent, n - 1), clock, consequent, clock(c.tick), t);
    }
  }

  // What an event whose cascade ends leaves behind, however long it takes.
  ghost predicate Outcome(before: Moment, after: Moment, list: seq<TriggerId>, consequent: seq<TriggerId>, lo: real,
                          hi: real)
    requires lo <= hi
  {
    && Moved(before, after, Elems(list) + Elems(consequent), lo, hi)
    && Throttled(after, list, lo) && (Gained(before, after) != {} ==> Throttled(after, consequent, lo))
    && (forall t :: |TimesOf(after.submitted, t)| <= |TimesOf(before.submitted, t)| + 1 + ((hi - lo) / 10.0).Floor)
    && (consequent == [] ==> forall t :: |TimesOf(after.submitted, t)| <= |TimesOf(before.submitted, t)| + 1)
    && (hi < lo + 10.0 ==> Fired(before, after, Gained(before, after), lo))
  }

  lemma CascadeGives(m: Moment, list: seq<TriggerId>, clock: Clock, consequent: seq<TriggerId>, n: nat)
    requires Recorded(m) && Monotone(clock) && NoDup(list)
    requires EndsBy(Cascade(m, list, 0), clock, consequent, n)
    ensures var d := After(Cascade(m, list, 0), clock, consequent, n);
      var last := if d.tick == 0 then 0 else d.tick - 1;
      clock(0) <= clock(last) && Outcome(m, d.m, list, consequent, clock(0), clock(last))
  {
    var c := Cascade(m, list, 0);
    var d := After(c, clock, consequent, n);
    var lo, hi := clock(0), clock(if d.tick == 0 then 0 else d.tick - 1);
    assert ReadsWithin(clock, 0, d.tick, lo, hi);
    Moves(c, clock, consequent, n, lo, hi);
    ThrottledAfter(c, clock, consequent, n);
    if consequent == [] { QuietOnce(c, clock, n); }
    if hi < lo + THROTTLE { FiredInTime(c, clock, consequent, n, lo, hi); }
    hide After, Moved, EndsBy, Recorded, Monotone, ReadsWithin, Fired, Gained, TimesOf, Throttled, Elems;
    forall t ensures |TimesOf(d.m.submitted, t)| <= |TimesOf(m.submitted, t)| + 1 + ((hi - lo) / 10.0).Floor {
      FiresInTime(m, d.m, Elems(list) + Elems(consequent), lo, hi, t);
    }
  }

  lemma ThrottledAfter(c: Cascade, clock: Clock, consequent: seq<TriggerId>, n: nat)
    requires Monotone(clock) && EndsBy(c, clock, consequent, n)
    ensures var d := After(c, clock, consequent, n);
      && Throttled(d.m, c.todo, clock(c.tick))
      && (Gained(c.m, d.m) != {} ==> Throttled(d.m, consequent, clock(c.tick)))
  {
    var d := After(c, clock, consequent, n);
    forall t | t in c.todo || (t in consequent && Gained(c.m, d.m) != {})
      ensures Last(d.m, t) > clock(c.tick) - THROTTLE
    {
      AllHandled(c, clock, consequent, n, t);
    }
  }

  lemma QuietOnce(c: Cascade, clock: Clock, n: nat)
    requires NoDup(c.todo) && EndsBy(c, clock, [], n)
    ensures forall t :: |TimesOf(After(c, clock, [], n).m.submitted, t)| <= |TimesOf(c.m.submitted, t)| + 1
  {
    QuietCascade(c, clock, |c.todo|);
    SameEnd(c, clock, [], n, |c.todo|);
    forall t ensures |TimesOf(After(c, clock, [], n).m.submitted, t)| <= |TimesOf(c.m.submitted, t)| + 1 {
      QuietFires(c, clock, |c.todo|, t);
    }
  }

  lemma {:induction false} StaysEnded(c: Cascade, clock: Clock, consequent: seq<TriggerId>, j: nat, k: nat)
    requires EndsBy(c, clock, consequent, j) && j <= k
    ensures After(c, clock, consequent, k) == After(c, clock, consequent, j)
    decreases k
  {
    if j < k { StaysEnded(c, clock, consequent, j, k - 1); }
  }

  // A cascade ends in one way.
  lemma SameEnd(c: Cascade, clock: Clock, consequent: seq<TriggerId>, j: nat, k: nat)
    requires EndsBy(c, clock, consequent, j) && EndsBy(c, clock, consequent, k)
    ensures After(c, clock, consequent, j) == After(c, clock, consequent, k)
  {
    if j < k { StaysEnded(c, clock, consequent, j, k); } else { StaysEnded(c, clock, consequent, k, j); }
  }

  // ---------- The scheduler ----------

  function ListOf(triggers: map<string, seq<TriggerId>>, eventType: string): seq<TriggerId> {
    if eventType in triggers then triggers[eventType] else []
  }

  // The triggers of the two events that a firing causes.
  function ConsequentOf(triggers: map<string, seq<TriggerId>>): seq<TriggerId> {
    ListOf(triggers, "job.queued") + ListOf(triggers, "job.event_triggered")
  }

  // An event's cascade ends on every clock exactly when the registry has no trigger for the event, or
  // none for "job.queued" and none for "job.event_triggered".
  lemma EventEndsIff(triggers: map<string, seq<TriggerId>>, eventType: string, m: Moment, from: real)
    ensures var c := Cascade(m, ListOf(triggers, eventType), 0);
      (forall clock: Clock {:trigger Ends(c, clock, ConsequentOf(triggers))} ::
         Monotone(clock) && clock(0) >= from ==> Ends(c, clock, ConsequentOf(triggers)))
      <==>
      || ListOf(triggers, eventType) == []
      || (ListOf(triggers, "job.queued") == [] && ListOf(triggers, "job.event_triggered") == [])
  {
    EndsIff(m, ListOf(triggers, eventType), ConsequentOf(triggers), from);
  }

  // A firing brings up the triggers on "job.queued" first, then those on "job.event_triggered", and
  // then what was still to be looked at.
  lemma FiringBringsUp(triggers: map<string, seq<TriggerId>>, c: Cascade, clock: Clock)
    requires c.todo != [] && clock(c.tick) - Last(c.m, c.todo[0]) >= 10.0
    requires "job.queued" in triggers && "job.event_triggered" in triggers
    ensures Step(c, clock, ConsequentOf(triggers)).todo ==
      triggers["job.queued"] + triggers["job.event_triggered"] + c.todo[1..]
  {
  }

  // For example, one trigger on "job.queued" keeps one such event going, firing at every look.
  lemma TriggersItself(t: TriggerId, n: nat)
    ensures var triggers := map["job.queued" := [t]];
      var start := Cascade(Moment(map[], [], []), ListOf(triggers, "job.queued"), 0);
      var c := After(start, SlowClock(0.0), ConsequentOf(triggers), n);
      c.todo != [] && |c.m.submitted| == n
  {
    var triggers := map["job.queued" := [t]];
    assert ConsequentOf(triggers) == [t];
    SlowCascadeGoesOn(Moment(map[], [], []), [t], [t], 0.0, n);
  }

  function Added(triggers: map<string, seq<TriggerId>>, eventType: string, t: TriggerId): map<string, seq<TriggerId>> {
    triggers[eventType := ListOf(triggers, eventType) + [t]]
  }

  // No trigger is listed twice for an event, and none that is yet to come.
  ghost predicate WellRegistered(triggers: map<string, seq<TriggerId>>, count: nat) {
    forall e {:trigger ListOf(triggers, e)} ::
      NoDup(ListOf(triggers, e)) && forall t :: t in ListOf(triggers, e) ==> t < count
  }

  lemma StillWellRegistered(triggers: map<string, seq<TriggerId>>, count: nat, eventType: string)
    requires WellRegistered(triggers, count)
    ensures WellRegistered(Added(triggers, eventType, count), count + 1)
    ensures forall e :: ListOf(Added(triggers, eventType, count), e) ==
                        if e == eventType then ListOf(triggers, e) + [count] else ListOf(triggers, e)
  {
    forall e ensures NoDup(ListOf(Added(triggers, eventType, count), e))
      ensures forall t :: t in ListOf(Added(triggers, eventType, count), e) ==> t < count + 1
    {
      assert NoDup(ListOf(triggers, e));
      if e == eventType { NoDupAppend(ListOf(triggers, e), count); }
    }
  }

  class Scheduler {
    // The registered triggers by event type, in registration order.
    var triggers: map<string, seq<TriggerId>>
    var count: nat
    var marks: map<TriggerId, real>
    var submitted: seq<Firing>
    // The readings taken in the present cascade.
    var tick: nat
    ghost var looks: seq<Look>

    ghost predicate Valid()
      reads this`triggers, this`count
    {
      WellRegistered(triggers, count)
    }

    ghost function View(): Moment
      reads this`marks, this`submitted, this`looks
    {
      Moment(marks, submitted, looks)
    }

    function Listeners(eventType: string): seq<TriggerId>
      reads this`triggers
    {
      ListOf(triggers, eventType)
    }

    function Consequent(): seq<TriggerId>
      reads this`triggers
    {
      ConsequentOf(triggers)
    }

    // The present cascade, when these triggers are still to be looked at.
    ghost function At(todo: seq<TriggerId>): Cascade
      reads this`marks, this`submitted, this`looks, this`tick
    {
      Cascade(View(), todo, tick)
    }

    constructor ()
      ensures Valid() && Recorded(View())
      ensures triggers == map[] && count == 0 && marks == map[] && submitted == []
    {
      triggers, count, marks, submitted, tick, looks := map[], 0, map[], [], 0, [];
    }

    // time.time()
    method Time(clock: Clock) returns (t: real)
      modifies this`tick
      ensures t == clock(old(tick)) && tick == old(tick) + 1
    {
      t := clock(tick);
      tick := tick + 1;
    }

    // _on_event: the bus hands an event to its wildcard subscriber. Of a cascade that ends within n
    // looks this takes the first k, and leaves the triggers of the events around it.
    method OnEvent(eventType: string, clock: Clock, ghost rest: seq<TriggerId>, ghost n: nat) returns (ghost k: nat)
      requires EndsBy(At(Listeners(eventType) + rest), clock, Consequent(), n)
      modifies this`marks, this`submitted, this`looks, this`tick
      ensures k <= n && Leads(old(At(Listeners(eventType) + rest)), At(rest), clock, Consequent(), k)
      decreases n, 4
    {
      if eventType in triggers {
        k := Scan(triggers[eventType], clock, rest, n);
      } else {
        k := 0;
        assert Listeners(eventType) + rest == rest;
      }
    }

    // The loop over the listeners of one event.
    method Scan(list: seq<TriggerId>, clock: Clock, ghost rest: seq<TriggerId>, ghost n: nat) returns (ghost k: nat)
      requires EndsBy(At(list + rest), clock, Consequent(), n)
      modifies this`marks, this`submitted, this`looks, this`tick
      ensures k <= n && Leads(old(At(list + rest)), At(rest), clock, Consequent(), k)
      decreases n, 3
    {
      hide EndsBy, Leads, ConsequentOf;
      ghost var start := At(list + rest);
      k := 0;
      StaysAt(start, clock, Consequent());
      assert list[0..] + rest == list + rest;
      for i := 0 to |list|
        invariant k <= n && Leads(start, At(list[i..] + rest), clock, Consequent(), k)
      {
        ghost var before, left := At(list[i..] + rest), list[i + 1..] + rest;
        HeadAndRest(list, i, rest);
        LeavesSteps(start, before, clock, Consequent(), n, k);
        ghost var j := LookAt(list[i], clock, left, n - k);
        LeadsOn(start, before, At(left), clock, Consequent(), k, j);
        k := k + j;
      }
      assert list[|list|..] + rest == rest;
    }

    // One look: a trigger inside its throttle interval is skipped.
    method LookAt(t: TriggerId, clock: Clock, ghost rest: seq<TriggerId>, ghost n: nat) returns (ghost k: nat)
      requires EndsBy(At([t] + rest), clock, Consequent(), n)
      modifies this`marks, this`submitted, this`looks, this`tick
      ensures k <= n && Leads(old(At([t] + rest)), At(rest), clock, Consequent(), k)
      decreases n, 2
    {
      ghost var c := At([t] + rest);
      FirstStep(c, clock, Consequent(), n);
      var checked := Time(clock);
      if checked - (if t in marks then marks[t] else 0.0) >= THROTTLE {
        k := Fire(t, checked, clock, rest, n);
      } else {
        looks := looks + [Look(t, checked, checked)];
        assert At(rest) == Step(c, clock, Consequent());
        k := 1;
      }
    }

    // The trigger is marked with a second reading, and its job submitted.
    method Mark(t: TriggerId, checked: real, clock: Clock)
      requires checked - Last(View(), t) >= THROTTLE
      modifies this`marks, this`submitted, this`looks, this`tick
      ensures View() == Looked(old(View()), Look(t, checked, clock(old(tick)))) && tick == old(tick) + 1
    {
      var at := Time(clock);
      marks, submitted, looks := marks[t := at], submitted + [Firing(t, at)], looks + [Look(t, checked, at)];
    }

    // The trigger fires: it is marked, its job is submitted, and the two events are handled.
    method Fire(t: TriggerId, checked: real, clock: Clock, ghost rest: seq<TriggerId>, ghost n: nat)
      returns (ghost k: nat)
      requires tick > 0 && checked == clock(tick - 1) && checked - Last(View(), t) >= THROTTLE
      requires EndsBy(Cascade(View(), [t] + rest, tick - 1), clock, Consequent(), n)
      modifies this`marks, this`submitted, this`looks, this`tick
      ensures k <= n && Leads(old(Cascade(View(), [t] + rest, tick - 1)), At(rest), clock, Consequent(), k)
      decreases n, 1
    {
      ghost var c := Cascade(View(), [t] + rest, tick - 1);
      FirstStep(c, clock, Consequent(), n);
      Mark(t, checked, clock);
      ghost var d := At(Consequent() + rest);
      assert d == Step(c, clock, Consequent());
      hide Step, Leads, EndsBy;
      k := Notify(clock, rest, n - 1);
      LeadsOn(c, d, At(rest), clock, Consequent(), 1, k);
      k := k + 1;
    }

    // The events of the submission and of the firing.
    method Notify(clock: Clock, ghost rest: seq<TriggerId>, ghost n: nat) returns (ghost k: nat)
      requires EndsBy(At(Consequent() + rest), clock, Consequent(), n)
      modifies this`marks, this`submitted, this`looks, this`tick
      ensures k <= n && Leads(old(At(Consequent() + rest)), At(rest), clock, Consequent(), k)
      decreases n, 5
    {
      hide Leads, EndsBy;
      ghost var c := At(Consequent() + rest);
      ghost var later := Listeners("job.event_triggered") + rest;
      assert Consequent() + rest == Listeners("job.queued") + later;
      k := OnEvent("job.queued", clock, later, n);
      ghost var d := At(later);
      LeavesSteps(c, d, clock, Consequent(), n, k);
      ghost var j := OnEvent("job.event_triggered", clock, rest, n - k);
      LeadsOn(c, d, At(rest), clock, Consequent(), k, j);
      k := k + j;
    }

    // An event from outside, on a clock on which its cascade ends. Then every listener of the event,
    // and of the two that a firing causes if any fired, is inside its throttle interval; no trigger
    // fires more often than the time taken allows, and none twice within less than an interval.
    method Emit(eventType: string, clock: Clock)
      requires Valid() && Recorded(View()) && Monotone(clock)
      requires Ends(Cascade(View(), Listeners(eventType), 0), clock, Consequent())
      modifies this`marks, this`submitted, this`looks, this`tick
      ensures var last := if tick == 0 then 0 else tick - 1;
        && clock(0) <= clock(last)
        && Outcome(old(View()), View(), Listeners(eventType), Consequent(), clock(0), clock(last))
      ensures exists n: nat :: Leads(Cascade(old(View()), Listeners(eventType), 0), At([]), clock, Consequent(), n)
    {
      tick := 0;
      ghost var c := At(Listeners(eventType));
      ghost var n: nat :| EndsBy(c, clock, Consequent(), n);
      assert Listeners(eventType) + [] == Listeners(eventType);
      ghost var k := OnEvent(eventType, clock, [], n);
      assert NoDup(ListOf(triggers, eventType));
      CascadeGives(c.m, Listeners(eventType), clock, Consequent(), k);
    }

    method AddTrigger(eventType: string) returns (t: TriggerId)
      requires Valid()
      modifies this`triggers, this`count
      ensures Valid() && t == old(count) && count == t + 1 && triggers == Added(old(triggers), eventType, t)
      ensures forall e :: Listeners(e) == if e == eventType then old(Listeners(e)) + [t] else old(Listeners(e))
    {
      t := count;
      StillWellRegistered(triggers, count, eventType);
      triggers, count := Added(triggers, eventType, t), count + 1;
    }

    // on_event: the registration itself emits "trigger.registered".
    method Register(eventType: string, clock: Clock) returns (t: TriggerId)
      requires Valid() && Recorded(View()) && Monotone(clock)
      requires var with := Added(triggers, eventType, count);
        Ends(Cascade(View(), ListOf(with, "trigger.registered"), 0), clock, ConsequentOf(with))
      modifies this
      ensures Valid() && t == old(count) && count == t + 1
      ensures forall e :: Listeners(e) == if e == eventType then old(Listeners(e)) + [t] else old(Listeners(e))
      ensures var list, last := Listeners("trigger.registered"), if tick == 0 then 0 else tick - 1;
        clock(0) <= clock(last) && Outcome(old(View()), View(), list, Consequent(), clock(0), clock(last))
    {
      hide Outcome, Recorded, WellRegistered, ConsequentOf, Added, Monotone, Ends;
      t := AddTrigger(eventType);
      Emit("trigger.registered", clock);
    }
  }
}
