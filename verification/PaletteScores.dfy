// openvs/core/command_palette.py: what the texts, the scores and the results of the palette are, in
// terms of the characters of items and queries.

module PaletteScores {
  import opened Basics
  import opened Sequences
  import opened StableSort
  import opened CommandPalette

  // ---------- Texts ----------

  ghost predicate White(c: char) {
    c in {' ', '\t', '\n', '\U{B}', '\U{C}', '\r', '\U{1C}', '\U{1D}', '\U{1E}', '\U{1F}'}
  }

  lemma SpaceIff(c: char)
    ensures IsSpace(c) <==> White(c)
  {
  }

  ghost predicate AllWhite(s: string) {
    forall i :: 0 <= i < |s| ==> White(s[i])
  }

  lemma {:induction false} StripLeftGives(s: string) returns (a: string)
    ensures s == a + StripLeft(s) && AllWhite(a)
    ensures StripLeft(s) != "" ==> !White(StripLeft(s)[0])
  {
    if s != "" && IsSpace(s[0]) {
      SpaceIff(s[0]);
      var b := StripLeftGives(s[1..]);
      a := [s[0]] + b;
      assert s == [s[0]] + s[1..];
    } else {
      a := "";
      if s != "" { SpaceIff(s[0]); }
    }
  }

  lemma {:induction false} StripRightGives(s: string) returns (b: string)
    ensures s == StripRight(s) + b && AllWhite(b) && StripRight(s) <= s
    ensures StripRight(s) != "" ==> !White(StripRight(s)[|StripRight(s)| - 1])
  {
    if s != "" && IsSpace(s[|s| - 1]) {
      SpaceIff(s[|s| - 1]);
      var a := StripRightGives(s[..|s| - 1]);
      b := a + [s[|s| - 1]];
      assert s == s[..|s| - 1] + [s[|s| - 1]];
    } else {
      b := "";
      if s != "" { SpaceIff(s[|s| - 1]); }
    }
  }

  // The query is lowered, and stripped of white space at both ends and nowhere else.
  lemma NormalizeGives(query: string) returns (a: string, b: string)
    ensures Lower(query) == a + Normalize(query) + b && AllWhite(a) && AllWhite(b)
    ensures var q := Normalize(query); q != "" ==> !White(q[0]) && !White(q[|q| - 1])
  {
    var lowered := Lower(query);
    a := StripLeftGives(lowered);
    var rest := StripLeft(lowered);
    b := StripRightGives(rest);
    hide AllWhite, White, StripLeft, StripRight, Lower;
    var q := StripRight(rest);
    assert a + q + b == a + (q + b);
    if q != "" { assert q[0] == rest[0]; }
  }

  lemma ContainsIff(s: string, q: string)
    ensures Contains(s, q) <==> exists a, b :: s == a + q + b
  {
    if Contains(s, q) {
      var i :| 0 <= i <= |s| && Occurs(s, q, i);
      assert s == s[..i] + q + s[i + |q|..];
    }
    if a, b :| s == a + q + b { assert Occurs(s, q, |a|); }
  }

  // " ".join(keywords)
  ghost function Joined(keywords: seq<string>): string {
    if keywords == [] then "" else if |keywords| == 1 then keywords[0] else keywords[0] + " " + Joined(keywords[1..])
  }

  lemma {:induction false} JoinIs(keywords: seq<string>)
    ensures Join(keywords) == Lower(Joined(keywords))
  {
    if |keywords| > 1 {
      var front, last := keywords[..|keywords| - 1], keywords[|keywords| - 1];
      JoinIs(front);
      JoinedLast(keywords);
      LowerConcat(Joined(front), " ", last);
    }
  }

  lemma {:induction false} JoinedLast(keywords: seq<string>)
    requires |keywords| > 1
    ensures Joined(keywords) == Joined(keywords[..|keywords| - 1]) + " " + keywords[|keywords| - 1]
  {
    var front, last := keywords[..|keywords| - 1], keywords[|keywords| - 1];
    if |keywords| == 2 {
      assert Joined(keywords[1..]) == last && Joined(front) == keywords[0];
    } else {
      JoinedLast(keywords[1..]);
      assert keywords[1..][..|keywords| - 2] == front[1..];
      var head, middle := keywords[0], Joined(front[1..]);
      assert head + " " + (middle + " " + last) == head + " " + middle + " " + last;
    }
  }

  lemma LowerConcat(a: string, b: string, c: string)
    requires Lower(b) == b
    ensures Lower(a + b + c) == Lower(a) + b + Lower(c)
  {
    assert Lower(a + b + c) == Lower(a) + Lower(b) + Lower(c);
  }

  // The text that is searched character by character is the title, the action and the keywords, lowered.
  lemma AllTextIs(item: PaletteItem)
    ensures AllText(item) == Lower(item.title + " " + item.action + " " + Joined(item.keywords))
  {
    JoinIs(item.keywords);
    hide Join, Joined;
    var rest := item.action + " " + Joined(item.keywords);
    LowerConcat(item.title, " ", rest);
    LowerConcat(item.action, " ", Joined(item.keywords));
    assert item.title + " " + item.action + " " + Joined(item.keywords) == item.title + " " + rest;
  }

  // ---------- Scores ----------

  ghost predicate TitleHas(x: PaletteItem, q: string) {
    Contains(Lower(x.title), q)
  }

  ghost predicate ActionHas(x: PaletteItem, q: string) {
    Contains(Lower(x.action), q)
  }

  ghost predicate KeywordHas(x: PaletteItem, q: string) {
    exists word :: word in x.keywords && Contains(Lower(word), q)
  }

  lemma KeywordHasIff(x: PaletteItem, q: string)
    ensures KeywordHas(x, q) <==> InKeyword(x, q)
  {
    if i :| 0 <= i < |x.keywords| && Contains(Lower(x.keywords[i]), q) { assert x.keywords[i] in x.keywords; }
  }

  // A match in the title scores above one in the action, that above one in a keyword, and that above
  // any other match; without a query all items score the same.
  lemma TiersInOrder(a: PaletteItem, b: PaletteItem, query: string)
    requires query != ""
    ensures var q := Normalize(query);
      && (TitleHas(a, q) && !TitleHas(b, q) ==> Score(a, query) > Score(b, query))
      && (TitleHas(a, q) && TitleHas(b, q) ==> Score(a, query) == Score(b, query))
      && (ActionHas(a, q) && !TitleHas(b, q) && !ActionHas(b, q) ==> Score(a, query) > Score(b, query))
      && (KeywordHas(a, q) && !TitleHas(b, q) && !ActionHas(b, q) && !KeywordHas(b, q) ==>
            Score(a, query) > Score(b, query))
    ensures Score(a, "") == Score(b, "") == 1.0
  {
    var q := Normalize(query);
    KeywordHasIff(a, q);
    KeywordHasIff(b, q);
    hide InKeyword, KeywordHas, Normalize, Contains, Lower;
    ScoreRange(a, query);
    ScoreRange(b, query);
  }

  lemma ScoreRange(x: PaletteItem, query: string)
    requires query != ""
    ensures var q, s := Normalize(query), Score(x, query);
      !TitleHas(x, q) && !ActionHas(x, q) && !InKeyword(x, q) ==> s == 0.0 || 1.0 <= s <= 1.5
  {
    hide InKeyword;
    var q := Normalize(query);
    if q == "" { EmptyIsContained(Lower(x.title)); }
    FuzzyIsLowest(x, query);
    FuzzyBounds(AllText(x), q, 0);
    if q != "" && Fuzzy(AllText(x), q, 0).Some? { Average(Fuzzy(AllText(x), q, 0).value, |q| as real); }
  }

  // f takes each character at its first place after the one before.
  ghost predicate TakesFirst(text: string, q: string, idx: nat, f: seq<nat>) {
    Embeds(q, text, idx, f) &&
    forall i, j :: 0 <= i < |f| && (if i == 0 then idx else f[i - 1] + 1) <= j < f[i] ==> text[j] != q[i]
  }

  // How many characters follow the one before, or the start, at once.
  ghost function Adjacent(idx: nat, f: seq<nat>): nat
    decreases |f|
  {
    if f == [] then 0 else (if f[0] == idx then 1 else 0) + Adjacent(f[0] + 1, f[1..])
  }

  // A point for each character found, and half a point more for each that follows at once.
  lemma {:induction false} FuzzyIs(text: string, q: string, idx: nat) returns (f: seq<nat>)
    requires Fuzzy(text, q, idx).Some?
    ensures TakesFirst(text, q, idx, f)
    ensures Fuzzy(text, q, idx).value == |q| as real + 0.5 * Adjacent(idx, f) as real
    decreases |q|
  {
    if q == "" {
      f := [];
    } else {
      var found := FindChar(text, q[0], idx).value;
      var g := FuzzyIs(text, q[1..], found + 1);
      f := [found] + g;
      assert f[1..] == g;
      FirstTaken(text, q, idx, found, g);
    }
  }

  lemma FirstTaken(text: string, q: string, idx: nat, found: nat, g: seq<nat>)
    requires q != "" && FindChar(text, q[0], idx) == Some(found) && TakesFirst(text, q[1..], found + 1, g)
    ensures TakesFirst(text, q, idx, [found] + g)
  {
    var f := [found] + g;
    forall i, j | 0 <= i < |f| && (if i == 0 then idx else f[i - 1] + 1) <= j < f[i] ensures text[j] != q[i] {
      if i > 0 { assert f[i] == g[i - 1] && q[1..][i - 1] == q[i]; }
    }
  }

  // A score that is no substring's is the average over the characters of the query.
  lemma FuzzyScoreIs(item: PaletteItem, query: string) returns (f: seq<nat>)
    requires query != "" && 0.0 < Score(item, query) < 6.0
    ensures var q := Normalize(query);
      && q != "" && TakesFirst(AllText(item), q, 0, f)
      && Score(item, query) == (|q| as real + 0.5 * Adjacent(0, f) as real) / |q| as real
  {
    var q := Normalize(query);
    if q == "" { EmptyIsContained(Lower(item.title)); }
    f := FuzzyIs(AllText(item), q, 0);
  }

  // ---------- Results ----------

  lemma {:induction false} OfKindIs(items: seq<PaletteItem>, power: bool)
    ensures OfKind(items, power) == Filter(items, (x: PaletteItem) => x.isPower == power)
  {
    if items != [] { OfKindIs(items[..|items| - 1], power); }
  }

  // Without a query all commands come in their order, the power commands only if asked for; the bare
  // prefix brings up exactly the power commands.
  lemma UnrankedResults(all: seq<PaletteItem>)
    ensures Search(all, "", true) == all
    ensures Search(all, "", false) == Filter(all, (x: PaletteItem) => !x.isPower)
    ensures forall withPower :: Search(all, ">", withPower) == Filter(all, (x: PaletteItem) => x.isPower)
  {
    OfKindIs(all, false);
    OfKindIs(all, true);
    FilterSame(all);
    assert ">"[1..] == "";
  }

  lemma {:induction false} FilterSame(all: seq<PaletteItem>)
    ensures Filter(all, (x: PaletteItem) => x.isPower == false) == Filter(all, (x: PaletteItem) => !x.isPower)
    ensures Filter(all, (x: PaletteItem) => x.isPower == true) == Filter(all, (x: PaletteItem) => x.isPower)
  {
    if all != [] { FilterSame(all[..|all| - 1]); }
  }

  // No result comes after one with a lower score.
  lemma BestFirst(items: seq<PaletteItem>, query: string)
    ensures var r := Ranked(items, query); forall i, j :: 0 <= i < j < |r| ==> Score(r[i], query) >= Score(r[j], query)
  {
    RankedIs(items, query);
    var r := Ranked(items, query);
    hide Ranked, Score;
    forall i, j | 0 <= i < j < |r| ensures Score(r[i], query) >= Score(r[j], query) {
      assert ScoreKey(query)(r[i]) <= ScoreKey(query)(r[j]);
    }
  }
}
