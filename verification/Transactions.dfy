// core/transactions.py: file snapshots, commit and rollback. The file system is a map from files to
// contents; several path strings may lead to the same file.

module Transactions {
  import opened Basics

  type Path = string
  type FileId = int

  // What is in a file: characters, and bytes that are none.
  datatype Unit = Char(c: char) | Malformed(b: nat)

  // Of a file that cannot be opened for reading the content is not known.
  datatype File = Data(units: seq<Unit>) | Locked(content: nat)

  type Files = map<FileId, File>

  function Lookup(files: Files, f: FileId): Option<File> {
    if f in files then Some(files[f]) else None
  }

  // ---------- Reading and writing as text ----------

  const REPLACEMENT: char := '\U{FFFD}'

  // Reading as text replaces what is not a character and turns every kind of line end into "\n".
  function Decode(units: seq<Unit>): string {
    if units == [] then ""
    else
      var rest := Decode(units[1..]);
      match units[0]
      case Malformed(_) => [REPLACEMENT] + rest
      case Char('\r') => if |units| > 1 && units[1] == Char('\n') then rest else "\n" + rest
      case Char(c) => [c] + rest
  }

  function Encode(text: string): (r: seq<Unit>)
    ensures |r| == |text| && forall i :: 0 <= i < |r| ==> r[i] == Char(text[i])
  {
    seq(|text|, i requires 0 <= i < |text| => Char(text[i]))
  }

  predicate Plain(units: seq<Unit>) {
    forall u :: u in units ==> u.Char? && u.c != '\r'
  }

  lemma {:induction false} NoReturns(units: seq<Unit>)
    ensures '\r' !in Decode(units)
  {
    if units != [] { NoReturns(units[1..]); }
  }

  lemma {:induction false} PlainReadsBack(units: seq<Unit>)
    requires Plain(units)
    ensures Encode(Decode(units)) == units
  {
    if units != [] {
      assert forall u :: u in units[1..] ==> u in units;
      PlainReadsBack(units[1..]);
      assert units[0] in units && Decode(units) == [units[0].c] + Decode(units[1..]);
    }
  }

  // What was read and is written again is the same exactly when the file holds characters only, and
  // no carriage return.
  lemma ReadsBackIff(units: seq<Unit>)
    ensures Encode(Decode(units)) == units <==> Plain(units)
  {
    if Plain(units) { PlainReadsBack(units); }
    NoReturns(units);
    EncodedIsPlain(Decode(units));
  }

  lemma EncodedIsPlain(text: string)
    requires '\r' !in text
    ensures Plain(Encode(text))
  {
  }

  // Each malformed byte becomes the replacement character, and each kind of line end "\n".
  lemma DecodesTo(b: nat, c: char)
    requires c != '\n' && c != '\r'
    ensures Decode([Malformed(b)]) == "\U{FFFD}" && Decode([Char(c)]) == [c] && Decode([Char('\n')]) == "\n"
    ensures Decode([Char('\r')]) == "\n" && Decode([Char('\r'), Char('\n')]) == "\n"
    ensures Decode([Char('\r'), Char(c)]) == ['\n', c]
  {
    assert [Malformed(b)][1..] == [] && [Char(c)][1..] == [] && [Char('\n')][1..] == [] && [Char('\r')][1..] == [];
    assert [Char('\r'), Char('\n')][1..] == [Char('\n')] && [Char('\r'), Char(c)][1..] == [Char(c)];
  }

  // ---------- Snapshots ----------

  // What a snapshot recorded: the text, that the file could not be read, or that there was no file.
  datatype Captured = Content(text: string) | Unreadable | Absent

  datatype Snapshot = Snapshot(path: Path, captured: Captured)

  function Capture(files: Files, f: FileId): Captured {
    if f !in files then Absent
    else match files[f]
      case Data(units) => Content(Decode(units))
      case Locked(_) => Unreadable
  }

  predicate Listed(snaps: seq<Snapshot>, path: Path) {
    exists i :: 0 <= i < |snaps| && snaps[i].path == path
  }

  // The first snapshot of a path string wins.
  function TakeSnapshot(resolve: Path -> FileId, files: Files, snaps: seq<Snapshot>, path: Path): seq<Snapshot> {
    if Listed(snaps, path) then snaps else snaps + [Snapshot(path, Capture(files, resolve(path)))]
  }

  // A path that was snapshotted before is not snapshotted again, whatever became of its file; any other
  // is, after the ones before.
  lemma SnapshotOnce(resolve: Path -> FileId, files: Files, snaps: seq<Snapshot>, path: Path)
    ensures (exists s :: s in snaps && s.path == path) ==> TakeSnapshot(resolve, files, snaps, path) == snaps
    ensures (forall s :: s in snaps ==> s.path != path) ==>
      TakeSnapshot(resolve, files, snaps, path) == snaps + [Snapshot(path, Capture(files, resolve(path)))]
  {
    if s :| s in snaps && s.path == path {
      var i :| 0 <= i < |snaps| && snaps[i] == s;
      assert snaps[i].path == path;
    }
  }

  function RestoreOne(resolve: Path -> FileId, files: Files, s: Snapshot): Files {
    match s.captured
    case Content(t) => files[resolve(s.path) := Data(Encode(t))]
    case Unreadable => files
    case Absent => files - {resolve(s.path)}
  }

  // Restoring goes from the last snapshot to the first.
  function Restore(resolve: Path -> FileId, files: Files, snaps: seq<Snapshot>): Files
    decreases |snaps|
  {
    if snaps == [] then files
    else Restore(resolve, RestoreOne(resolve, files, snaps[|snaps| - 1]), snaps[..|snaps| - 1])
  }

  // ---------- What a rollback leaves in each file ----------

  ghost predicate Covers(resolve: Path -> FileId, snaps: seq<Snapshot>, f: FileId) {
    exists i :: 0 <= i < |snaps| && resolve(snaps[i].path) == f
  }

  // The earliest readable snapshot of f, under whatever path.
  ghost function Earliest(resolve: Path -> FileId, snaps: seq<Snapshot>, f: FileId): (e: Option<Captured>)
    ensures e.Some? ==> !e.value.Unreadable? && Covers(resolve, snaps, f)
  {
    if snaps == [] then None
    else
      var front, last := Earliest(resolve, snaps[..|snaps| - 1], f), snaps[|snaps| - 1];
      if front.Some? then
        assert Covers(resolve, snaps[..|snaps| - 1], f);
        var i :| 0 <= i < |snaps| - 1 && resolve(snaps[..|snaps| - 1][i].path) == f;
        assert resolve(snaps[i].path) == f;
        front
      else if resolve(last.path) == f && !last.captured.Unreadable? then Some(last.captured)
      else None
  }

  function AsFile(c: Captured): Option<File> {
    match c
    case Content(t) => Some(Data(Encode(t)))
    case _ => None
  }

  // Whatever happened since, a rollback puts into every file what its earliest readable snapshot
  // recorded, and leaves a file without one alone.
  lemma {:induction false} RestoreGives(resolve: Path -> FileId, files: Files, snaps: seq<Snapshot>, f: FileId)
    ensures Lookup(Restore(resolve, files, snaps), f) ==
      match Earliest(resolve, snaps, f) case Some(c) => AsFile(c) case None => Lookup(files, f)
    decreases |snaps|
  {
    if snaps != [] {
      RestoreGives(resolve, RestoreOne(resolve, files, snaps[|snaps| - 1]), snaps[..|snaps| - 1], f);
    }
  }

  // ---------- Runs of a transaction ----------

  datatype Step = Snap(path: Path) | Write(f: FileId, content: File) | Delete(f: FileId)

  datatype World = World(files: Files, snaps: seq<Snapshot>)

  function Next(resolve: Path -> FileId, w: World, step: Step): World {
    match step
    case Snap(path) => w.(snaps := TakeSnapshot(resolve, w.files, w.snaps, path))
    case Write(f, content) => w.(files := w.files[f := content])
    case Delete(f) => w.(files := w.files - {f})
  }

  // A file is changed only after a snapshot was taken under one of its paths.
  ghost predicate Allowed(resolve: Path -> FileId, w: World, step: Step) {
    match step
    case Snap(_) => true
    case Write(f, _) => Covers(resolve, w.snaps, f)
    case Delete(f) => Covers(resolve, w.snaps, f)
  }

  ghost predicate LegalRun(resolve: Path -> FileId, w: World, steps: seq<Step>) {
    steps == [] ||
    (LegalRun(resolve, w, steps[..|steps| - 1]) &&
     Allowed(resolve, Run(resolve, w, steps[..|steps| - 1]), steps[|steps| - 1]))
  }

  ghost function Run(resolve: Path -> FileId, w: World, steps: seq<Step>): World {
    if steps == [] then w else Next(resolve, Run(resolve, w, steps[..|steps| - 1]), steps[|steps| - 1])
  }

  predicate Readable(files: Files, f: FileId) {
    f in files ==> files[f].Data?
  }

  // The file is absent, or can be read and written again without loss.
  predicate Restorable(files: Files, f: FileId) {
    f in files ==> files[f].Data? && Plain(files[f].units)
  }

  lemma CaptureGives(files: Files, f: FileId)
    requires Readable(files, f)
    ensures !Capture(files, f).Unreadable? && (AsFile(Capture(files, f)) == Lookup(files, f) <==> Restorable(files, f))
  {
    if f in files { ReadsBackIff(files[f].units); }
  }

  // An uncovered file is as it was at the start; a covered one that was readable at the start has
  // its content of then in its earliest snapshot.
  ghost predicate Remembers(resolve: Path -> FileId, start: Files, w: World, f: FileId) {
    && (!Covers(resolve, w.snaps, f) ==> Lookup(w.files, f) == Lookup(start, f))
    && (Covers(resolve, w.snaps, f) && Readable(start, f) ==>
          Earliest(resolve, w.snaps, f) == Some(Capture(start, f)))
  }

  lemma CoversAppend(resolve: Path -> FileId, snaps: seq<Snapshot>, s: Snapshot, f: FileId)
    ensures Covers(resolve, snaps + [s], f) <==> Covers(resolve, snaps, f) || resolve(s.path) == f
  {
    var all := snaps + [s];
    assert all[|snaps|] == s;
    if Covers(resolve, snaps, f) {
      var i :| 0 <= i < |snaps| && resolve(snaps[i].path) == f;
      assert all[i] == snaps[i];
    }
    if Covers(resolve, all, f) {
      var i :| 0 <= i < |all| && resolve(all[i].path) == f;
      assert i < |snaps| ==> snaps[i] == all[i];
    }
  }

  lemma StepRemembers(resolve: Path -> FileId, start: Files, w: World, step: Step, f: FileId)
    requires Remembers(resolve, start, w, f) && Allowed(resolve, w, step)
    ensures Remembers(resolve, start, Next(resolve, w, step), f)
  {
    if step.Snap? && !Listed(w.snaps, step.path) {
      var s := Snapshot(step.path, Capture(w.files, resolve(step.path)));
      CoversAppend(resolve, w.snaps, s, f);
      EarliestAppend(resolve, w.snaps, s, f);
      hide Covers, Earliest;
    } else {
      hide Covers, Earliest;
    }
  }

  lemma EarliestAppend(resolve: Path -> FileId, snaps: seq<Snapshot>, s: Snapshot, f: FileId)
    ensures Earliest(resolve, snaps + [s], f) ==
      if Earliest(resolve, snaps, f).Some? then Earliest(resolve, snaps, f)
      else if resolve(s.path) == f && !s.captured.Unreadable? then Some(s.captured)
      else None
  {
    assert (snaps + [s])[..|snaps|] == snaps;
  }

  lemma {:induction false} RunRemembers(resolve: Path -> FileId, start: Files, steps: seq<Step>, f: FileId)
    requires LegalRun(resolve, World(start, []), steps)
    ensures Remembers(resolve, start, Run(resolve, World(start, []), steps), f)
  {
    if steps != [] {
      var front := steps[..|steps| - 1];
      RunRemembers(resolve, start, front, f);
      StepRemembers(resolve, start, Run(resolve, World(start, []), front), steps[|steps| - 1], f);
    }
  }

  // What rolling back the run does to file f: one that was not snapshotted is as it was, and one that
  // was readable is as it was exactly when it reads back unchanged. Aliasing paths do no harm: of
  // several snapshots of one file the earliest is restored last.
  lemma RollbackRestoresFile(resolve: Path -> FileId, start: Files, steps: seq<Step>, f: FileId)
    requires LegalRun(resolve, World(start, []), steps)
    ensures var w := Run(resolve, World(start, []), steps);
      var same := Lookup(Restore(resolve, w.files, w.snaps), f) == Lookup(start, f);
      && (!Covers(resolve, w.snaps, f) ==> same)
      && (Covers(resolve, w.snaps, f) && Readable(start, f) ==> (same <==> Restorable(start, f)))
  {
    var w := Run(resolve, World(start, []), steps);
    RunRemembers(resolve, start, steps, f);
    RestoreGives(resolve, w.files, w.snaps, f);
    if Readable(start, f) { CaptureGives(start, f); }
    hide Restorable, Capture;
  }

  ghost predicate AllReadable(resolve: Path -> FileId, start: Files, snaps: seq<Snapshot>) {
    forall f {:trigger Covers(resolve, snaps, f)} :: Covers(resolve, snaps, f) ==> Readable(start, f)
  }

  ghost predicate AllRestorable(resolve: Path -> FileId, start: Files, snaps: seq<Snapshot>) {
    forall f {:trigger Covers(resolve, snaps, f)} :: Covers(resolve, snaps, f) ==> Restorable(start, f)
  }

  // If what was snapshotted was readable at the start, rolling back restores the whole file system
  // exactly when it all reads back unchanged.
  lemma RollbackRestores(resolve: Path -> FileId, start: Files, steps: seq<Step>)
    requires LegalRun(resolve, World(start, []), steps)
    requires AllReadable(resolve, start, Run(resolve, World(start, []), steps).snaps)
    ensures var w := Run(resolve, World(start, []), steps);
      Restore(resolve, w.files, w.snaps) == start <==> AllRestorable(resolve, start, w.snaps)
  {
    var w := Run(resolve, World(start, []), steps);
    var result := Restore(resolve, w.files, w.snaps);
    hide Restore, Run, LegalRun, Restorable;
    forall f
      ensures !Covers(resolve, w.snaps, f) ==> Lookup(result, f) == Lookup(start, f)
      ensures Covers(resolve, w.snaps, f) ==> (Lookup(result, f) == Lookup(start, f) <==> Restorable(start, f))
    {
      RollbackRestoresFile(resolve, start, steps, f);
    }
    if AllRestorable(resolve, start, w.snaps) { SameFiles(result, start); }
  }

  lemma SameFiles(a: Files, b: Files)
    requires forall f :: Lookup(a, f) == Lookup(b, f)
    ensures a == b
  {
    forall f ensures f in a <==> f in b { assert Lookup(a, f) == Lookup(b, f); }
    forall f | f in a ensures a[f] == b[f] { assert Lookup(a, f) == Lookup(b, f); }
  }

  // A file that cannot be read is skipped, so whatever is written to it stays, and one that does not
  // read back is restored altered: a snapshot of a path protects its file against every later write
  // exactly when the file is absent or reads back unchanged.
  lemma SnapshotProtectsIff(resolve: Path -> FileId, start: Files, path: Path)
    ensures (forall content: File ::
               var w := Run(resolve, World(start, []), [Snap(path), Write(resolve(path), content)]);
               Restore(resolve, w.files, w.snaps) == start)
            <==> Restorable(start, resolve(path))
  {
    var f := resolve(path);
    forall content: File
      ensures var w := Run(resolve, World(start, []), [Snap(path), Write(f, content)]);
        && (Readable(start, f) ==> (Restore(resolve, w.files, w.snaps) == start <==> Restorable(start, f)))
        && (!Readable(start, f) ==> Restore(resolve, w.files, w.snaps) == start[f := content])
    {
      RunOfTwo(resolve, World(start, []), Snap(path), Write(f, content));
      RestoreOfOne(resolve, start[f := content], Snapshot(path, Capture(start, f)));
      if Readable(start, f) { WrittenOver(resolve, start, path, content); }
    }
    var w := Run(resolve, World(start, []), [Snap(path), Write(f, Data([]))]);
    assert !Readable(start, f) ==> Restore(resolve, w.files, w.snaps)[f] == Data([]);
  }

  lemma WrittenOver(resolve: Path -> FileId, start: Files, path: Path, content: File)
    requires Readable(start, resolve(path))
    ensures var f := resolve(path);
      RestoreOne(resolve, start[f := content], Snapshot(path, Capture(start, f))) == start <==> Restorable(start, f)
  {
    var f := resolve(path);
    var result := RestoreOne(resolve, start[f := content], Snapshot(path, Capture(start, f)));
    CaptureGives(start, f);
    assert Lookup(result, f) == AsFile(Capture(start, f));
    if Lookup(result, f) == Lookup(start, f) { SameFiles(result, start); }
  }

  // For example, a text with a line end of the other kind.
  lemma LineEndIsLost(resolve: Path -> FileId, path: Path)
    ensures var start: Files := map[resolve(path) := Data([Char('\r'), Char('\n')])];
      var w := Run(resolve, World(start, []), [Snap(path)]);
      Restore(resolve, w.files, w.snaps) == map[resolve(path) := Data([Char('\n')])]
  {
    var units := [Char('\r'), Char('\n')];
    var start: Files := map[resolve(path) := Data(units)];
    assert units[1..] == [Char('\n')] && [Char('\n')][1..] == [];
    assert Decode([Char('\n')]) == "\n" && Decode(units) == "\n";
    assert [Snap(path)][..0] == [];
    assert Run(resolve, World(start, []), [Snap(path)]) == Next(resolve, World(start, []), Snap(path));
    RestoreOfOne(resolve, start, Snapshot(path, Content("\n")));
    assert Encode("\n") == [Char('\n')];
  }

  lemma RunOfTwo(resolve: Path -> FileId, w: World, a: Step, b: Step)
    ensures Run(resolve, w, [a, b]) == Next(resolve, Next(resolve, w, a), b)
  {
    assert [a][..0] == [];
    assert Run(resolve, w, [a]) == Next(resolve, w, a);
    assert [a, b][..1] == [a];
  }

  lemma RestoreOfOne(resolve: Path -> FileId, files: Files, s: Snapshot)
    ensures Restore(resolve, files, [s]) == RestoreOne(resolve, files, s)
  {
    assert [s][..0] == [];
  }

  // ---------- Several transactions, one after the other ----------

  // The file system after the runs.
  ghost function After(resolve: Path -> FileId, files: Files, runs: seq<seq<Step>>): Files {
    if runs == [] then files
    else Run(resolve, World(After(resolve, files, runs[..|runs| - 1]), []), runs[|runs| - 1]).files
  }

  // The snapshots of the last of the runs.
  ghost function LastSnaps(resolve: Path -> FileId, files: Files, runs: seq<seq<Step>>): seq<Snapshot>
    requires runs != []
  {
    Run(resolve, World(After(resolve, files, runs[..|runs| - 1]), []), runs[|runs| - 1]).snaps
  }

  ghost predicate AllLegal(resolve: Path -> FileId, files: Files, runs: seq<seq<Step>>) {
    runs == [] ||
    (AllLegal(resolve, files, runs[..|runs| - 1]) &&
     LegalRun(resolve, World(After(resolve, files, runs[..|runs| - 1]), []), runs[|runs| - 1]) &&
     AllRestorable(resolve, After(resolve, files, runs[..|runs| - 1]), LastSnaps(resolve, files, runs)))
  }

  ghost function AllSnaps(resolve: Path -> FileId, files: Files, runs: seq<seq<Step>>): (r: seq<seq<Snapshot>>)
    ensures |r| == |runs|
  {
    if runs == [] then [] else AllSnaps(resolve, files, runs[..|runs| - 1]) + [LastSnaps(resolve, files, runs)]
  }

  // Undoing the transactions with the given snapshots, the newest first.
  ghost function UndoAll(resolve: Path -> FileId, files: Files, stacks: seq<seq<Snapshot>>): Files
    decreases |stacks|
  {
    if stacks == [] then files
    else UndoAll(resolve, Restore(resolve, files, stacks[|stacks| - 1]), stacks[..|stacks| - 1])
  }

  // Committed transactions undone newest first take the file system back to where the oldest began.
  lemma {:induction false} UndoNewestFirst(resolve: Path -> FileId, files: Files, runs: seq<seq<Step>>)
    requires AllLegal(resolve, files, runs)
    ensures UndoAll(resolve, After(resolve, files, runs), AllSnaps(resolve, files, runs)) == files
  {
    if runs != [] {
      var front := runs[..|runs| - 1];
      RollbackRestores(resolve, After(resolve, files, front), runs[|runs| - 1]);
      UndoNewestFirst(resolve, files, front);
      var stacks := AllSnaps(resolve, files, runs);
      assert stacks[..|stacks| - 1] == AllSnaps(resolve, files, front);
    }
  }

  // Undone oldest first, two transactions restore the start exactly when the second found the files
  // it covers as they were before the first.
  lemma OldestFirstIff(resolve: Path -> FileId, files: Files, first: seq<Step>, second: seq<Step>)
    requires AllLegal(resolve, files, [first]) && AllLegal(resolve, After(resolve, files, [first]), [second])
    ensures var mid := After(resolve, files, [first]);
      var s1, s2 := LastSnaps(resolve, files, [first]), LastSnaps(resolve, mid, [second]);
      Restore(resolve, Restore(resolve, After(resolve, mid, [second]), s1), s2) == files <==>
      forall f {:trigger Covers(resolve, s2, f)} :: Covers(resolve, s2, f) ==> Lookup(mid, f) == Lookup(files, f)
  {
    OneRun(resolve, files, first);
    var mid := After(resolve, files, [first]);
    OneRun(resolve, mid, second);
    var end := After(resolve, mid, [second]);
    var s1, s2 := LastSnaps(resolve, files, [first]), LastSnaps(resolve, mid, [second]);
    var undone := Restore(resolve, end, s1);
    var result := Restore(resolve, undone, s2);
    forall f
      ensures Lookup(result, f) == if Covers(resolve, s2, f) then Lookup(mid, f) else Lookup(files, f)
    {
      RunRemembers(resolve, files, first, f);
      RunRemembers(resolve, mid, second, f);
      RestoreGives(resolve, end, s1, f);
      RestoreGives(resolve, undone, s2, f);
      if Restorable(files, f) { CaptureGives(files, f); }
      if Restorable(mid, f) { CaptureGives(mid, f); }
      hide Restorable, Capture, Restore;
    }
    if forall f {:trigger Covers(resolve, s2, f)} :: Covers(resolve, s2, f) ==> Lookup(mid, f) == Lookup(files, f) {
      SameFiles(result, files);
    }
  }

  lemma OneRun(resolve: Path -> FileId, files: Files, run: seq<Step>)
    ensures var w := Run(resolve, World(files, []), run);
      && After(resolve, files, [run]) == w.files && LastSnaps(resolve, files, [run]) == w.snaps
      && (AllLegal(resolve, files, [run]) ==>
        LegalRun(resolve, World(files, []), run) && AllRestorable(resolve, files, w.snaps))
  {
    assert [run][..0] == [];
  }

  // ---------- The transaction objects ----------

  class FileSystem {
    const resolve: Path -> FileId
    var files: Files

    constructor (resolve: Path -> FileId, files: Files)
      ensures this.resolve == resolve && this.files == files
    {
      this.resolve, this.files := resolve, files;
    }
  }

  lemma RestoreNext(resolve: Path -> FileId, files: Files, snaps: seq<Snapshot>, i: nat)
    requires i < |snaps|
    ensures Restore(resolve, files, snaps[..i + 1]) ==
      Restore(resolve, RestoreOne(resolve, files, snaps[i]), snaps[..i])
  {
    assert snaps[..i + 1][..i] == snaps[..i];
  }

  datatype Action = Restored | UnreadableSkip | Deleted

  datatype Report = Refused | Undone(actions: seq<(Path, Action)>)

  function ActionOf(s: Snapshot): (Path, Action) {
    (s.path, match s.captured case Content(_) => Restored case Unreadable => UnreadableSkip case Absent => Deleted)
  }

  class Transaction {
    const id: nat
    var snapshots: seq<Snapshot>
    var committed: bool
    var rolledBack: bool

    constructor (id: nat)
      ensures this.id == id && snapshots == [] && !committed && !rolledBack
    {
      this.id, snapshots, committed, rolledBack := id, [], false, false;
    }

    // snapshot_file
    method SnapshotFile(fs: FileSystem, path: Path)
      modifies this`snapshots
      ensures snapshots == TakeSnapshot(fs.resolve, fs.files, old(snapshots), path)
    {
      for i := 0 to |snapshots|
        invariant !Listed(snapshots[..i], path)
      {
        if snapshots[i].path == path { return; }
      }
      assert snapshots[..|snapshots|] == snapshots;
      snapshots := snapshots + [Snapshot(path, Capture(fs.files, fs.resolve(path)))];
    }

    method Commit()
      modifies this`committed
      ensures committed
    {
      committed := true;
    }

    // A committed transaction refuses; otherwise the snapshots are restored, the last one first.
    method Rollback(fs: FileSystem) returns (report: Report)
      modifies this`rolledBack, fs`files
      ensures report.Refused? <==> committed
      ensures committed ==> fs.files == old(fs.files) && rolledBack == old(rolledBack)
      ensures !committed ==> rolledBack && fs.files == Restore(fs.resolve, old(fs.files), snapshots)
      ensures !committed ==> |report.actions| == |snapshots|
      ensures !committed ==> forall k :: 0 <= k < |snapshots| ==>
        report.actions[k] == ActionOf(snapshots[|snapshots| - 1 - k])
      ensures !committed ==> forall k :: 0 <= k < |snapshots| ==>
        var s, action := snapshots[|snapshots| - 1 - k], report.actions[k];
        && action.0 == s.path && (action.1 == Restored <==> s.captured.Content?)
        && (action.1 == UnreadableSkip <==> s.captured == Unreadable) && (action.1 == Deleted <==> s.captured == Absent)
    {
      if committed { return Refused; }
      hide RestoreOne;
      var actions := [];
      var i := |snapshots|;
      assert snapshots[..i] == snapshots;
      while i > 0
        invariant 0 <= i <= |snapshots|
        invariant Restore(fs.resolve, fs.files, snapshots[..i]) == Restore(fs.resolve, old(fs.files), snapshots)
        invariant |actions| == |snapshots| - i
        invariant forall k :: 0 <= k < |actions| ==> actions[k] == ActionOf(snapshots[|snapshots| - 1 - k])
      {
        i := i - 1;
        RestoreNext(fs.resolve, fs.files, snapshots, i);
        fs.files := RestoreOne(fs.resolve, fs.files, snapshots[i]);
        actions := actions + [ActionOf(snapshots[i])];
      }
      rolledBack := true;
      return Undone(actions);
    }
  }

  class TransactionManager {
    const fs: FileSystem
    var transactions: seq<Transaction>
    var active: Transaction?
    var counter: nat

    // Transactions are numbered in order, and the active one is among them.
    ghost predicate Valid()
      reads this, transactions
    {
      && |transactions| == counter
      && (forall i :: 0 <= i < counter ==> transactions[i].id == i + 1)
      && (active != null ==> active in transactions)
    }

    constructor (fs: FileSystem)
      ensures Valid() && this.fs == fs && transactions == [] && active == null
    {
      this.fs, transactions, active, counter := fs, [], null, 0;
    }

    method Begin() returns (tx: Transaction)
      requires Valid()
      modifies this`transactions, this`active, this`counter
      ensures Valid() && fresh(tx) && active == tx && transactions == old(transactions) + [tx]
      ensures tx.snapshots == [] && !tx.committed && !tx.rolledBack
    {
      counter := counter + 1;
      tx := new Transaction(counter);
      transactions, active := transactions + [tx], tx;
    }

    method CommitActive() returns (ok: bool)
      requires Valid()
      modifies this`active, if active != null then {active} else {}
      ensures Valid() && active == null && ok == (old(active) != null)
      ensures ok ==> old(active).committed
      ensures ok ==> old(active).rolledBack == old(active.rolledBack) && old(active).snapshots == old(active.snapshots)
    {
      if active == null { return false; }
      active.Commit();
      active := null;
      return true;
    }

    method RollbackActive() returns (report: Report)
      requires Valid()
      modifies this`active, fs`files, if active != null then {active} else {}
      ensures Valid() && active == null
      ensures report.Refused? <==> old(active == null || active.committed)
      ensures report.Refused? ==> fs.files == old(fs.files)
      ensures old(active) != null ==>
        && old(active).committed == old(active.committed) && old(active).snapshots == old(active.snapshots)
        && old(active).rolledBack == (report.Undone? || old(active.rolledBack))
      ensures report.Undone? ==> fs.files == Restore(fs.resolve, old(fs.files), old(active).snapshots)
    {
      if active == null { return Refused; }
      report := active.Rollback(fs);
      active := null;
    }

    method GetTransaction(id: nat) returns (tx: Transaction?)
      requires Valid()
      ensures tx == if 1 <= id <= counter then transactions[id - 1] else null
    {
      for i := 0 to |transactions|
        invariant forall k :: 0 <= k < i ==> transactions[k].id != id
      {
        if transactions[i].id == id { return transactions[i]; }
      }
      return null;
    }

    // Undoes a transaction, committed or not, unless it was undone before. The active transaction
    // stays the active one.
    method RollbackTo(id: nat) returns (report: Report)
      requires Valid()
      modifies transactions, fs`files
      ensures Valid()
      ensures report.Refused? <==> !(1 <= id <= counter) || old(transactions[id - 1].rolledBack)
      ensures report.Refused? ==> fs.files == old(fs.files)
      ensures report.Undone? ==> fs.files == Restore(fs.resolve, old(fs.files), transactions[id - 1].snapshots)
      ensures report.Undone? ==> transactions[id - 1].rolledBack && !transactions[id - 1].committed
      ensures forall i :: 0 <= i < counter ==> transactions[i].snapshots == old(transactions[i].snapshots)
      ensures forall i :: 0 <= i < counter && i + 1 != id ==>
        transactions[i].committed == old(transactions[i].committed) &&
          transactions[i].rolledBack == old(transactions[i].rolledBack)
    {
      var tx := GetTransaction(id);
      if tx == null || tx.rolledBack { return Refused; }
      tx.committed := false;
      report := tx.Rollback(fs);
    }
  }

  ghost function SnapshotsOf(transactions: seq<Transaction>): (r: seq<seq<Snapshot>>)
    reads transactions
    ensures |r| == |transactions|
  {
    if transactions == [] then []
    else SnapshotsOf(transactions[..|transactions| - 1]) + [transactions[|transactions| - 1].snapshots]
  }

  // The transactions are these legal runs, one after the other from these files.
  ghost predicate RecordedRuns(manager: TransactionManager, start: Files, runs: seq<seq<Step>>)
    reads manager, manager.transactions, manager.fs
  {
    && AllLegal(manager.fs.resolve, start, runs) && manager.fs.files == After(manager.fs.resolve, start, runs)
    && SnapshotsOf(manager.transactions) == AllSnaps(manager.fs.resolve, start, runs)
  }

  // A caller that undoes every transaction with rollback_to, the newest first. If the transactions
  // were the given runs, one after the other, the files are again what they were at the start.
  method UndoInTurn(manager: TransactionManager, ghost start: Files, ghost runs: seq<seq<Step>>)
    requires manager.Valid() && forall tx :: tx in manager.transactions ==> !tx.rolledBack
    modifies manager.transactions, manager.fs`files
    ensures manager.fs.files ==
      UndoAll(manager.fs.resolve, old(manager.fs.files), old(SnapshotsOf(manager.transactions)))
    ensures old(RecordedRuns(manager, start, runs)) ==> manager.fs.files == start
  {
    UndoEverything(manager);
    if old(RecordedRuns(manager, start, runs)) { UndoNewestFirst(manager.fs.resolve, start, runs); }
  }

  method UndoEverything(manager: TransactionManager)
    requires manager.Valid() && forall tx :: tx in manager.transactions ==> !tx.rolledBack
    modifies manager.transactions, manager.fs`files
    ensures manager.fs.files ==
      UndoAll(manager.fs.resolve, old(manager.fs.files), old(SnapshotsOf(manager.transactions)))
  {
    var all, k := manager.transactions, manager.counter;
    ghost var resolve, start, stacks := manager.fs.resolve, manager.fs.files, SnapshotsOf(manager.transactions);
    assert all[..k] == all;
    hide Restore;
    while k > 0
      invariant 0 <= k <= |all| && manager.Valid()
      invariant forall tx :: tx in all ==> tx.snapshots == old(tx.snapshots)
      invariant forall i :: 0 <= i < k ==> !all[i].rolledBack
      invariant UndoAll(resolve, manager.fs.files, old(SnapshotsOf(all[..k]))) == UndoAll(resolve, start, stacks)
    {
      assert all[..k][..k - 1] == all[..k - 1];
      assert all[k - 1] in all;
      var _ := manager.RollbackTo(k);
      k := k - 1;
    }
  }
}
