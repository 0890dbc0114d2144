// core/merge_engine.py: merging patches to one file by text replacement.

module MergeEngine {
  import opened Basics
  import opened Sequences
  import opened StableSort

  // First and last line of a changed region.
  type Region = (int, int)

  // changed is what comparing the old and the new lines yields.
  datatype Patch = Patch(id: string, agent: string, oldText: string, newText: string, changed: seq<Region>)

  // ---------- str.find and str.replace(old, new, 1) ----------

  function FindFrom(s: string, t: string, i: nat): (r: Option<nat>)
    requires i <= |s|
    ensures r.Some? ==> i <= r.value && Occurs(s, t, r.value) && forall j :: i <= j < r.value ==> !Occurs(s, t, j)
    ensures r.None? ==> forall j :: i <= j ==> !Occurs(s, t, j)
    decreases |s| - i
  {
    if Occurs(s, t, i) then Some(i)
    else if i == |s| then None
    else FindFrom(s, t, i + 1)
  }

  function Replace(s: string, t: string, u: string, i: nat): string
    requires Occurs(s, t, i)
  {
    s[..i] + u + s[i + |t|..]
  }

  // What the text becomes, unless the patch conflicts.
  function Apply(current: string, p: Patch): Option<string> {
    if p.oldText == current then Some(p.newText)
    else match FindFrom(current, p.oldText, 0)
      case None => None
      case Some(i) => Some(Replace(current, p.oldText, p.newText, i))
  }

  // ---------- sorted(patches, key=priority) ----------

  function Priority(agent: string): int {
    if agent == "critic" then 10
    else if agent == "security_auditor" then 5
    else if agent == "tester" then 3
    else if agent == "coder" then 2
    else if agent == "planner" then 1
    else 0
  }

  function PriorityKey(): Patch -> real {
    (p: Patch) => Priority(p.agent) as real
  }

  function SortByPriority(patches: seq<Patch>): seq<Patch> {
    Sort(patches, PriorityKey())
  }

  // Patches are merged by ascending priority, those of one priority in the order given.
  lemma SortedByPriority(patches: seq<Patch>, priority: int)
    ensures InOrder(SortByPriority(patches), PriorityKey()) && |SortByPriority(patches)| == |patches|
    ensures WithKey(SortByPriority(patches), PriorityKey(), priority as real) ==
      WithKey(patches, PriorityKey(), priority as real)
  {
    SortInOrder(patches, PriorityKey());
    SortKeepsTies(patches, PriorityKey(), priority as real);
  }

  // The rank of an agent: those not listed come first, the critic last.
  ghost function Rank(agent: string): nat {
    match agent
    case "planner" => 1
    case "coder" => 2
    case "tester" => 3
    case "security_auditor" => 4
    case "critic" => 5
    case _ => 0
  }

  lemma PatchesByRank(patches: seq<Patch>)
    ensures var sorted := SortByPriority(patches);
      forall i, j :: 0 <= i < j < |sorted| ==> Rank(sorted[i].agent) <= Rank(sorted[j].agent)
  {
    var sorted := SortByPriority(patches);
    SortInOrder(patches, PriorityKey());
    assert InOrder(sorted, PriorityKey());
    hide SortByPriority;
    forall i, j | 0 <= i < j < |sorted| ensures Rank(sorted[i].agent) <= Rank(sorted[j].agent) {
      assert PriorityKey()(sorted[i]) <= PriorityKey()(sorted[j]);
      RankIff(sorted[i].agent, sorted[j].agent);
    }
  }

  lemma RankIff(a: string, b: string)
    ensures Priority(a) <= Priority(b) <==> Rank(a) <= Rank(b)
  {
  }

  // A patch applies exactly when its old text occurs, and replaces the first occurrence.
  lemma ApplyIs(current: string, p: Patch)
    ensures Apply(current, p).Some? <==> exists a, b :: current == a + p.oldText + b
    ensures Apply(current, p).Some? ==> exists a, b ::
      && current == a + p.oldText + b && Apply(current, p).value == a + p.newText + b
      && forall c, d :: current == c + p.oldText + d ==> |a| <= |c|
  {
    var found := FindFrom(current, p.oldText, 0);
    forall c, d | current == c + p.oldText + d ensures found.Some? && found.value <= |c| {
      assert Occurs(current, p.oldText, |c|);
    }
    assert current == p.oldText ==> Occurs(current, p.oldText, 0);
    if found.Some? {
      var i := found.value;
      var a, b := current[..i], current[i + |p.oldText|..];
      assert current == a + p.oldText + b && Replace(current, p.oldText, p.newText, i) == a + p.newText + b;
      if current == p.oldText { assert a + p.newText + b == p.newText; }
    }
  }

  // ---------- _merge_file ----------

  datatype Conflict = Conflict(patchIds: seq<string>, overlaps: seq<Region>)

  datatype MergeResult = MergeResult(merged: Option<string>, applied: seq<string>, conflicts: seq<Conflict>)

  // The text after the first patches, those that conflict being skipped.
  function Merged(start: string, patches: seq<Patch>): string {
    if patches == [] then start
    else
      var current := Merged(start, patches[..|patches| - 1]);
      match Apply(current, patches[|patches| - 1])
      case Some(text) => text
      case None => current
  }

  function Ids(patches: seq<Patch>): (r: seq<string>)
    ensures |r| == |patches| && forall i :: 0 <= i < |r| ==> r[i] == patches[i].id
  {
    seq(|patches|, i requires 0 <= i < |patches| => patches[i].id)
  }

  // The patches applied.
  function Applied(start: string, patches: seq<Patch>): seq<Patch> {
    if patches == [] then []
    else
      var front, last := patches[..|patches| - 1], patches[|patches| - 1];
      Applied(start, front) + if Apply(Merged(start, front), last).Some? then [last] else []
  }

  // For each conflict, the patches up to and including the one that cannot be applied.
  function Conflicting(start: string, patches: seq<Patch>): seq<seq<string>> {
    if patches == [] then []
    else
      var front, last := patches[..|patches| - 1], patches[|patches| - 1];
      Conflicting(start, front) + if Apply(Merged(start, front), last).Some? then [] else [Ids(patches)]
  }

  predicate Overlap(a: Region, b: Region) {
    a.0 <= b.1 && b.0 <= a.1
  }

  predicate HasLine(r: Region, line: int) {
    r.0 <= line <= r.1
  }

  predicate Covered(regions: seq<Region>, line: int) {
    exists i :: 0 <= i < |regions| && HasLine(regions[i], line)
  }

  function Both(a: Region, b: Region): Region {
    (Max(a.0, b.0), Min(a.1, b.1))
  }

  // The overlaps of one region with those listed, in their order, empty ones among them.
  function OverlapsWith(r: Region, b: seq<Region>): seq<Region> {
    if b == [] then []
    else OverlapsWith(r, b[..|b| - 1]) + if Overlap(r, b[|b| - 1]) then [Both(r, b[|b| - 1])] else []
  }

  function OverlapsOf(a: seq<Region>, b: seq<Region>): seq<Region> {
    if a == [] then [] else OverlapsOf(a[..|a| - 1], b) + OverlapsWith(a[|a| - 1], b)
  }

  method FindOverlaps(a: seq<Region>, b: seq<Region>) returns (overlaps: seq<Region>)
    ensures overlaps == OverlapsOf(a, b)
  {
    overlaps := [];
    for i := 0 to |a|
      invariant overlaps == OverlapsOf(a[..i], b)
    {
      ghost var before := overlaps;
      for j := 0 to |b|
        invariant overlaps == before + OverlapsWith(a[i], b[..j])
      {
        assert b[..j + 1][..j] == b[..j];
        if Overlap(a[i], b[j]) { overlaps := overlaps + [Both(a[i], b[j])]; }
      }
      assert b[..|b|] == b && a[..i + 1][..i] == a[..i];
    }
    assert a[..|a|] == a;
  }

  lemma CoveredConcat(a: seq<Region>, b: seq<Region>, line: int)
    ensures Covered(a + b, line) <==> Covered(a, line) || Covered(b, line)
  {
    if Covered(a, line) {
      var i :| 0 <= i < |a| && HasLine(a[i], line);
      assert (a + b)[i] == a[i];
    }
    if Covered(b, line) {
      var i :| 0 <= i < |b| && HasLine(b[i], line);
      assert (a + b)[|a| + i] == b[i];
    }
    if Covered(a + b, line) {
      var i :| 0 <= i < |a + b| && HasLine((a + b)[i], line);
      assert i < |a| ==> a[i] == (a + b)[i];
      assert i >= |a| ==> b[i - |a|] == (a + b)[i];
    }
  }

  lemma CoveredOne(r: Region, line: int)
    ensures Covered([r], line) <==> HasLine(r, line)
    ensures !Covered([], line)
  {
    assert [r][0] == r;
  }

  lemma {:induction false} OverlapsWithCover(r: Region, b: seq<Region>, line: int)
    ensures Covered(OverlapsWith(r, b), line) <==> HasLine(r, line) && Covered(b, line)
  {
    CoveredOne(r, line);
    if b != [] {
      var front, last := b[..|b| - 1], b[|b| - 1];
      assert b == front + [last];
      OverlapsWithCover(r, front, line);
      CoveredConcat(front, [last], line);
      CoveredOne(last, line);
      CoveredConcat(OverlapsWith(r, front), [Both(r, last)], line);
      CoveredOne(Both(r, last), line);
      assert OverlapsWith(r, front) + [] == OverlapsWith(r, front);
    }
  }

  // The overlaps cover exactly the lines that both lists cover.
  lemma {:induction false} OverlapsCover(a: seq<Region>, b: seq<Region>, line: int)
    ensures Covered(OverlapsOf(a, b), line) <==> Covered(a, line) && Covered(b, line)
  {
    if a == [] {
      CoveredOne((0, 0), line);
    } else {
      var front, last := a[..|a| - 1], a[|a| - 1];
      assert a == front + [last];
      OverlapsCover(front, b, line);
      OverlapsWithCover(last, b, line);
      CoveredConcat(front, [last], line);
      CoveredOne(last, line);
      CoveredConcat(OverlapsOf(front, b), OverlapsWith(last, b), line);
    }
  }

  // The conflict's regions are the overlaps of what its last patch and the one before change.
  ghost predicate ShowsOverlap(sorted: seq<Patch>, c: Conflict) {
    var k := |c.patchIds|;
    && 0 < k <= |sorted|
    && c.overlaps == OverlapsOf(if k > 1 then sorted[k - 2].changed else [], sorted[k - 1].changed)
  }

  // A region is listed exactly as the intersection of two that overlap.
  lemma {:induction false} OverlapsWithAre(x: Region, b: seq<Region>, r: Region)
    ensures r in OverlapsWith(x, b) <==>
      exists y :: y in b && x.0 <= y.1 && y.0 <= x.1 && r == (Max(x.0, y.0), Min(x.1, y.1))
  {
    if b != [] {
      var front, last := b[..|b| - 1], b[|b| - 1];
      assert b == front + [last];
      OverlapsWithAre(x, front, r);
    }
  }

  lemma {:induction false} OverlapsAre(a: seq<Region>, b: seq<Region>, r: Region)
    ensures r in OverlapsOf(a, b) <==>
      exists x, y :: x in a && y in b && x.0 <= y.1 && y.0 <= x.1 && r == (Max(x.0, y.0), Min(x.1, y.1))
  {
    if a != [] {
      var front, last := a[..|a| - 1], a[|a| - 1];
      assert a == front + [last];
      OverlapsAre(front, b, r);
      OverlapsWithAre(last, b, r);
    }
  }

  function ConflictIds(conflicts: seq<Conflict>): (r: seq<seq<string>>)
    ensures |r| == |conflicts| && forall i :: 0 <= i < |r| ==> r[i] == conflicts[i].patchIds
  {
    seq(|conflicts|, i requires 0 <= i < |conflicts| => conflicts[i].patchIds)
  }

  // ---------- Fragments of a base text ----------

  // A base text in pieces: what stays, and the fragments that the patches replace.
  datatype Piece = Gap(text: string) | Slot(patch: Patch)

  function Render(piece: Piece, done: set<Patch>): string {
    match piece
    case Gap(text) => text
    case Slot(p) => if p in done then p.newText else p.oldText
  }

  // The text in which the patches in done are applied, and the others not.
  function Text(pieces: seq<Piece>, done: set<Patch>): string {
    if pieces == [] then "" else Text(pieces[..|pieces| - 1], done) + Render(pieces[|pieces| - 1], done)
  }

  lemma {:induction false} TextConcat(a: seq<Piece>, b: seq<Piece>, done: set<Patch>)
    ensures Text(a + b, done) == Text(a, done) + Text(b, done)
  {
    if b == [] {
      assert a + b == a;
    } else {
      var front, last := b[..|b| - 1], b[|b| - 1];
      TextConcat(a, front, done);
      assert (a + b)[..|a + b| - 1] == a + front;
      hide Render;
      Associative(Text(a, done), Text(front, done), Render(last, done));
    }
  }

  lemma Associative(x: string, y: string, z: string)
    ensures x + y + z == x + (y + z)
  {
  }

  lemma {:induction false} TextWithout(pieces: seq<Piece>, done: set<Patch>, p: Patch)
    requires Slot(p) !in pieces
    ensures Text(pieces, done + {p}) == Text(pieces, done)
  {
    if pieces != [] {
      assert pieces[|pieces| - 1] in pieces;
      TextWithout(pieces[..|pieces| - 1], done, p);
    }
  }

  ghost predicate OccursOnce(s: string, t: string) {
    forall i, j :: Occurs(s, t, i) && Occurs(s, t, j) ==> i == j
  }

  // Each patch has one fragment; stretches that are kept may repeat.
  ghost predicate OneSlotEach(pieces: seq<Piece>) {
    forall i, j :: 0 <= i < j < |pieces| && pieces[i].Slot? ==> pieces[i] != pieces[j]
  }

  // The fragments are disjoint and distinct, and each occurs once in every partially merged text
  // that still has it.
  ghost predicate Separate(pieces: seq<Piece>, patches: set<Patch>) {
    && OneSlotEach(pieces) && (forall p :: p in patches <==> Slot(p) in pieces)
    && forall done, p {:trigger OccursOnce(Text(pieces, done), p.oldText)} ::
         done <= patches && p in patches - done ==> OccursOnce(Text(pieces, done), p.oldText)
  }

  // Applying one more patch replaces its fragment.
  lemma ApplyFills(pieces: seq<Piece>, patches: set<Patch>, done: set<Patch>, p: Patch)
    requires Separate(pieces, patches) && done <= patches && p in patches - done
    ensures Apply(Text(pieces, done), p) == Some(Text(pieces, done + {p}))
  {
    var k :| 0 <= k < |pieces| && pieces[k] == Slot(p);
    var a, b := pieces[..k], pieces[k + 1..];
    forall x | x in a || x in b ensures x != Slot(p) {
      if x in a {
        var i :| 0 <= i < k && a[i] == x;
        assert pieces[i] == x;
      } else {
        var i :| 0 <= i < |b| && b[i] == x;
        assert pieces[k + 1 + i] == x;
      }
    }
    assert pieces == a + [pieces[k]] + b;
    SplitAt(a, p, b, done);
    SplitAt(a, p, b, done + {p});
    TextWithout(a, done, p);
    TextWithout(b, done, p);
    var s := Text(pieces, done);
    assert OccursOnce(s, p.oldText);
    FillOne(s, Text(a, done), p, Text(b, done));
  }

  lemma SplitAt(a: seq<Piece>, p: Patch, b: seq<Piece>, done: set<Patch>)
    ensures Text(a + [Slot(p)] + b, done) == Text(a, done) + Render(Slot(p), done) + Text(b, done)
  {
    TextConcat(a + [Slot(p)], b, done);
    TextConcat(a, [Slot(p)], done);
    assert [Slot(p)][..0] == [];
    assert Text([Slot(p)], done) == Render(Slot(p), done);
  }

  lemma FillOne(s: string, before: string, p: Patch, after: string)
    requires s == before + p.oldText + after && OccursOnce(s, p.oldText)
    ensures Apply(s, p) == Some(before + p.newText + after)
  {
    assert Occurs(s, p.oldText, |before|);
    if p.oldText == s {
      assert before == "" && after == "";
      assert before + p.newText + after == p.newText;
    } else {
      assert FindFrom(s, p.oldText, 0) == Some(|before|);
      assert s[..|before|] == before && s[|before| + |p.oldText|..] == after;
    }
  }

  // Merging the patches in any order yields the simultaneous substitution, and nothing conflicts.
  lemma {:induction false} MergeFills(pieces: seq<Piece>, patches: set<Patch>, list: seq<Patch>)
    requires Separate(pieces, patches) && NoDup(list) && Elems(list) <= patches
    ensures Merged(Text(pieces, {}), list) == Text(pieces, Elems(list))
    ensures Applied(Text(pieces, {}), list) == list && Conflicting(Text(pieces, {}), list) == []
  {
    if list == [] {
      assert Elems(list) == {};
    } else {
      var front, last := list[..|list| - 1], list[|list| - 1];
      assert list == front + [last];
      assert Elems(list) == Elems(front) + {last};
      MergeFills(pieces, patches, front);
      ApplyFills(pieces, patches, Elems(front), last);
    }
  }

  // Patches that replace separate fragments of the base merge without conflict, and the result does
  // not depend on their order or on the agents' priorities.
  lemma MergeIsSubstitution(pieces: seq<Piece>, patches: seq<Patch>)
    requires NoDup(patches) && Separate(pieces, Elems(patches))
    ensures var sorted := SortByPriority(patches);
      && Merged(Text(pieces, {}), sorted) == Text(pieces, Elems(patches))
      && Applied(Text(pieces, {}), sorted) == sorted && Conflicting(Text(pieces, {}), sorted) == []
  {
    var sorted := SortByPriority(patches);
    assert Elems(sorted) == Elems(patches);
    MergeFills(pieces, Elems(patches), sorted);
  }

  // Patch by patch: one whose old text occurs in the text at that point is applied, and any other
  // makes a conflict of all patches up to it; nothing is merged as soon as there is a conflict.
  lemma MergeTurn(start: string, patches: seq<Patch>, i: nat)
    requires i < |patches|
    ensures var before, after, p := patches[..i], patches[..i + 1], patches[i];
      var current := Merged(start, before);
      && (if exists a, b :: current == a + p.oldText + b
          then && Applied(start, after) == Applied(start, before) + [p]
               && Conflicting(start, after) == Conflicting(start, before)
          else && Applied(start, after) == Applied(start, before) && Merged(start, after) == current
               && Conflicting(start, after) == Conflicting(start, before) + [Ids(after)])
      && Merged(start, []) == start && Applied(start, []) == [] && Conflicting(start, []) == []
      && (LoopContent(start, patches).Some? <==> Conflicting(start, patches) == [])
  {
    ApplyIs(Merged(start, patches[..i]), patches[i]);
    assert patches[..i + 1][..i] == patches[..i];
    hide Apply;
    MergedNext(start, patches, i);
  }

  // What the loop over the sorted patches returns as the merged content.
  function LoopContent(start: string, sorted: seq<Patch>): Option<string> {
    if Conflicting(start, sorted) == [] then Some(Merged(start, sorted)) else None
  }

  // What is returned for a single patch, without looking at the base.
  function SingleResult(p: Patch): MergeResult {
    MergeResult(Some(p.newText), [p.id], [])
  }

  // That is what the loop would return exactly when the patch replaces the whole base.
  lemma SinglePatchIff(base: string, p: Patch)
    ensures SingleResult(p).merged == LoopContent(base, [p]) <==> base == p.oldText
  {
    LoopOfOne(base, p);
    var found := FindFrom(base, p.oldText, 0);
    if base != p.oldText && found.Some? {
      assert |Replace(base, p.oldText, p.newText, found.value)| == |base| - |p.oldText| + |p.newText|;
      WholeOrLess(base, p.oldText, found.value);
    }
  }

  lemma WholeOrLess(s: string, t: string, i: int)
    requires Occurs(s, t, i)
    ensures t == s || |t| < |s|
  {
    if |t| == |s| { assert s[i..i + |t|] == s; }
  }

  lemma LoopOfOne(base: string, p: Patch)
    ensures LoopContent(base, [p]) == Apply(base, p)
  {
    assert [p][..0] == [];
    assert Merged(base, []) == base && Conflicting(base, []) == [];
  }

  // For a fragment inside the base it is not the substitution either, and where the fragment does
  // not occur at all no conflict is reported.
  lemma SinglePatchSubstitutesIff(before: string, p: Patch, after: string)
    ensures SingleResult(p).merged == Some(before + p.newText + after) <==> before + p.oldText + after == p.oldText
  {
    assert |before + p.newText + after| == |before| + |p.newText| + |after|;
    assert |before + p.oldText + after| == |before| + |p.oldText| + |after|;
    if before == "" && after == "" {
      assert before + p.newText + after == p.newText && before + p.oldText + after == p.oldText;
    }
  }

  lemma SinglePatchHidesConflict(base: string, p: Patch)
    requires forall i :: !Occurs(base, p.oldText, i)
    ensures LoopContent(base, [p]) == None && SingleResult(p) == MergeResult(Some(p.newText), [p.id], [])
  {
    LoopOfOne(base, p);
    if base == p.oldText { assert Occurs(base, p.oldText, 0); }
  }

  // For example, one of two letters.
  lemma OneOfTwoLetters(p: Patch)
    requires p.oldText == "a" && p.newText == "c"
    ensures LoopContent("ab", [p]) == Some("cb") && SingleResult(p).merged == Some("c")
  {
    LoopOfOne("ab", p);
    assert Occurs("ab", "a", 0) && "ab"[1..] == "b";
    assert FindFrom("ab", "a", 0) == Some(0);
    assert "ab"[..0] + "c" + "b" == "cb";
  }

  method MergeFile(patches: seq<Patch>, base: Option<string>) returns (r: MergeResult)
    requires patches != []
    ensures |patches| == 1 ==> r == SingleResult(patches[0])
    ensures |patches| > 1 ==>
      var sorted := SortByPriority(patches);
      var start := if base.Some? && base.value != "" then base.value else patches[0].oldText;
      && r.applied == Ids(Applied(start, sorted)) && ConflictIds(r.conflicts) == Conflicting(start, sorted)
      && (forall c :: c in r.conflicts ==> ShowsOverlap(sorted, c))
      && r.merged == LoopContent(start, sorted)
  {
    if |patches| == 1 { return SingleResult(patches[0]); }
    var start := if base.Some? && base.value != "" then base.value else patches[0].oldText;
    r := MergeSorted(start, SortByPriority(patches));
  }

  method MergeSorted(start: string, sorted: seq<Patch>) returns (r: MergeResult)
    ensures r.applied == Ids(Applied(start, sorted)) && ConflictIds(r.conflicts) == Conflicting(start, sorted)
    ensures forall c :: c in r.conflicts ==> ShowsOverlap(sorted, c)
    ensures r.merged == LoopContent(start, sorted)
  {
    hide Apply, Merged, Applied, Conflicting, ShowsOverlap;
    MergedNone(start);
    assert sorted[..0] == [];
    var current, applied, conflicts := start, [], [];
    for i := 0 to |sorted|
      invariant current == Merged(start, sorted[..i]) && applied == Ids(Applied(start, sorted[..i]))
      invariant ConflictIds(conflicts) == Conflicting(start, sorted[..i])
      invariant forall c :: c in conflicts ==> ShowsOverlap(sorted, c)
    {
      MergedNext(start, sorted, i);
      match Apply(current, sorted[i]) {
        case Some(text) =>
          current, applied := text, applied + [sorted[i].id];
        case None =>
          var conflict := Describe(sorted, i);
          conflicts := conflicts + [conflict];
          assert ConflictIds(conflicts) == ConflictIds(conflicts[..|conflicts| - 1]) + [Ids(sorted[..i + 1])];
      }
    }
    assert sorted[..|sorted|] == sorted;
    return MergeResult(if conflicts == [] then Some(current) else None, applied, conflicts);
  }

  // The conflict at the patch at i.
  method Describe(sorted: seq<Patch>, i: nat) returns (c: Conflict)
    requires i < |sorted|
    ensures c.patchIds == Ids(sorted[..i + 1]) && ShowsOverlap(sorted, c)
  {
    var overlaps := FindOverlaps(if i > 0 then sorted[i - 1].changed else [], sorted[i].changed);
    c := Conflict(Ids(sorted[..i + 1]), overlaps);
  }

  lemma MergedNone(start: string)
    ensures Merged(start, []) == start && Ids(Applied(start, [])) == [] && Conflicting(start, []) == []
  {
  }

  lemma MergedNext(start: string, patches: seq<Patch>, i: nat)
    requires i < |patches|
    ensures var before, after, p := patches[..i], patches[..i + 1], patches[i];
      var next := Apply(Merged(start, before), p);
      && Merged(start, after) == (if next.Some? then next.value else Merged(start, before))
      && Ids(Applied(start, after)) == Ids(Applied(start, before)) + (if next.Some? then [p.id] else [])
      && Conflicting(start, after) == Conflicting(start, before) + (if next.Some? then [] else [Ids(after)])
  {
    assert patches[..i + 1][..i] == patches[..i];
    assert Ids(Applied(start, patches[..i]) + [patches[i]]) == Ids(Applied(start, patches[..i])) + [patches[i].id];
    assert Ids(Applied(start, patches[..i]) + []) == Ids(Applied(start, patches[..i])) + [];
  }
}
