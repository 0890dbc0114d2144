// openvs/core/command_palette.py: fuzzy matching, search and the list of recent commands.

module CommandPalette {
  import opened Basics
  import opened Sequences
  import opened StableSort

  datatype PaletteItem = PaletteItem(title: string, action: string, keywords: seq<string>, isPower: bool)

  // ---------- str.strip and the in operator, on ASCII ----------

  predicate IsSpace(c: char) {
    c == ' ' || 9 <= c as int <= 13 || 28 <= c as int <= 31
  }

  function StripLeft(s: string): string {
    if s != "" && IsSpace(s[0]) then StripLeft(s[1..]) else s
  }

  function StripRight(s: string): string {
    if s != "" && IsSpace(s[|s| - 1]) then StripRight(s[..|s| - 1]) else s
  }

  function Normalize(query: string): string {
    StripRight(StripLeft(Lower(query)))
  }

  predicate Contains(s: string, q: string) {
    exists i :: 0 <= i <= |s| && Occurs(s, q, i)
  }

  // ---------- Subsequences ----------

  // f gives, for each character of q, a place in s, from start on and from left to right.
  ghost predicate Embeds(q: string, s: string, start: nat, f: seq<nat>) {
    && |f| == |q|
    && (forall i :: 0 <= i < |f| ==> start <= f[i] < |s| && s[f[i]] == q[i])
    && forall i, j :: 0 <= i < j < |f| ==> f[i] < f[j]
  }

  ghost predicate SubsequenceFrom(q: string, s: string, start: nat) {
    exists f :: Embeds(q, s, start, f)
  }

  ghost predicate Subsequence(q: string, s: string) {
    SubsequenceFrom(q, s, 0)
  }

  lemma SubstringEmbeds(q: string, a: string, s: string, b: string)
    requires Contains(s, q)
    ensures Subsequence(q, a + s + b)
  {
    var i :| 0 <= i <= |s| && Occurs(s, q, i);
    var f := seq(|q|, k requires 0 <= k < |q| => |a| + i + k);
    forall k | 0 <= k < |q| ensures (a + s + b)[f[k]] == q[k] {
      assert s[i..i + |q|][k] == q[k];
    }
    assert Embeds(q, a + s + b, 0, f);
  }

  lemma PrefixEmbeds(q: string, r: string, s: string)
    requires q <= r && Subsequence(r, s)
    ensures Subsequence(q, s)
  {
    var f :| Embeds(r, s, 0, f);
    assert Embeds(q, s, 0, f[..|q|]);
  }

  // ---------- The greedy search ----------

  // text.find(c, idx)
  function FindChar(text: string, c: char, idx: nat): (r: Option<nat>)
    ensures r.Some? ==> idx <= r.value < |text| && text[r.value] == c && forall j :: idx <= j < r.value ==> text[j] != c
    ensures r.None? ==> forall j :: idx <= j < |text| ==> text[j] != c
    decreases |text| - idx
  {
    if idx >= |text| then None
    else if text[idx] == c then Some(idx)
    else FindChar(text, c, idx + 1)
  }

  // One point for each character found, and half a point more if it follows at once.
  function Fuzzy(text: string, q: string, idx: nat): Option<real> {
    if q == "" then Some(0.0)
    else match FindChar(text, q[0], idx)
      case None => None
      case Some(found) =>
        match Fuzzy(text, q[1..], found + 1)
        case None => None
        case Some(rest) => Some((if found == idx then 1.5 else 1.0) + rest)
  }

  // Taking the first place for each character loses nothing.
  lemma {:induction false} GreedyIsComplete(text: string, q: string, idx: nat)
    ensures Fuzzy(text, q, idx).Some? <==> SubsequenceFrom(q, text, idx)
    decreases |q|
  {
    if q == "" {
      assert Embeds(q, text, idx, []);
    } else {
      var found := FindChar(text, q[0], idx);
      if found.Some? { GreedyIsComplete(text, q[1..], found.value + 1); }
      EmbedsFirst(text, q, idx);
    }
  }

  lemma EmbedsFirst(text: string, q: string, idx: nat)
    requires q != ""
    ensures var found := FindChar(text, q[0], idx);
      SubsequenceFrom(q, text, idx) <==> found.Some? && SubsequenceFrom(q[1..], text, found.value + 1)
  {
    var found := FindChar(text, q[0], idx);
    if f :| Embeds(q, text, idx, f) {
      assert text[f[0]] == q[0];
      RestEmbeds(text, q, idx, f, found.value);
    }
    if found.Some? && SubsequenceFrom(q[1..], text, found.value + 1) {
      var g :| Embeds(q[1..], text, found.value + 1, g);
      assert Embeds(q, text, idx, [found.value] + g);
    }
  }

  lemma RestEmbeds(text: string, q: string, idx: nat, f: seq<nat>, found: nat)
    requires q != "" && Embeds(q, text, idx, f) && found <= f[0]
    ensures SubsequenceFrom(q[1..], text, found + 1)
  {
    assert Embeds(q[1..], text, found + 1, f[1..]);
  }

  lemma {:induction false} FuzzyBounds(text: string, q: string, idx: nat)
    ensures Fuzzy(text, q, idx).Some? ==> |q| as real <= Fuzzy(text, q, idx).value <= 1.5 * |q| as real
    decreases |q|
  {
    if q != "" && FindChar(text, q[0], idx).Some? {
      FuzzyBounds(text, q[1..], FindChar(text, q[0], idx).value + 1);
    }
  }

  // ---------- match_score ----------

  function Join(keywords: seq<string>): string {
    if keywords == [] then ""
    else if |keywords| == 1 then Lower(keywords[0])
    else Join(keywords[..|keywords| - 1]) + " " + Lower(keywords[|keywords| - 1])
  }

  function AllText(item: PaletteItem): string {
    Lower(item.title) + " " + Lower(item.action) + " " + Join(item.keywords)
  }

  predicate InKeyword(item: PaletteItem, q: string) {
    exists i :: 0 <= i < |item.keywords| && Contains(Lower(item.keywords[i]), q)
  }

  function Score(item: PaletteItem, query: string): real {
    if query == "" then 1.0
    else
      var q := Normalize(query);
      if Contains(Lower(item.title), q) then 10.0
      else if Contains(Lower(item.action), q) then 8.0
      else if InKeyword(item, q) then 6.0
      else match Fuzzy(AllText(item), q, 0)
        case None => 0.0
        case Some(score) => if q == "" then 0.0 else score / |q| as real
  }

  lemma {:induction false} KeywordInJoin(keywords: seq<string>, i: nat) returns (a: string, b: string)
    requires i < |keywords|
    ensures Join(keywords) == a + Lower(keywords[i]) + b
  {
    if |keywords| == 1 {
      a, b := "", "";
    } else {
      var front, last := keywords[..|keywords| - 1], keywords[|keywords| - 1];
      if i == |front| {
        a, b := Join(front) + " ", "";
      } else {
        a, b := KeywordInJoin(front, i);
        b := b + " " + Lower(last);
      }
    }
  }

  // A non-empty normalized query is found nowhere in an empty string, so the last case divides by
  // the length of a non-empty query.
  lemma EmptyIsContained(s: string)
    ensures Contains(s, "")
  {
    assert Occurs(s, "", 0);
  }

  lemma SubstringsAreSubsequences(item: PaletteItem, q: string)
    requires Contains(Lower(item.title), q) || Contains(Lower(item.action), q) || InKeyword(item, q)
    ensures Subsequence(q, AllText(item))
  {
    var title, action, words := Lower(item.title), Lower(item.action), Join(item.keywords);
    var text := AllText(item);
    if Contains(title, q) {
      SubstringEmbeds(q, "", title, " " + action + " " + words);
      assert text == "" + title + (" " + action + " " + words);
    } else if Contains(action, q) {
      SubstringEmbeds(q, title + " ", action, " " + words);
      assert text == title + " " + action + (" " + words);
    } else {
      var i :| 0 <= i < |item.keywords| && Contains(Lower(item.keywords[i]), q);
      var a, b := KeywordInJoin(item.keywords, i);
      SubstringEmbeds(q, title + " " + action + " " + a, Lower(item.keywords[i]), b);
      assert text == title + " " + action + " " + a + Lower(item.keywords[i]) + b;
    }
  }

  // The score is positive exactly when the normalized query is a subsequence of the item's text.
  lemma ScorePositiveIff(item: PaletteItem, query: string)
    requires query != ""
    ensures Score(item, query) > 0.0 <==> Subsequence(Normalize(query), AllText(item))
    ensures Score(item, query) >= 0.0
  {
    hide Normalize, Lower, Contains, InKeyword, AllText, Fuzzy, SubsequenceFrom;
    var q := Normalize(query);
    if Contains(Lower(item.title), q) || Contains(Lower(item.action), q) || InKeyword(item, q) {
      SubstringsAreSubsequences(item, q);
    } else {
      if q == "" { EmptyIsContained(Lower(item.title)); }
      GreedyIsComplete(AllText(item), q, 0);
      FuzzyBounds(AllText(item), q, 0);
    }
  }

  // A match that is no substring scores between 1 and 1.5, below every other match.
  lemma FuzzyIsLowest(item: PaletteItem, query: string)
    requires query != ""
    ensures var s := Score(item, query); s in {0.0, 6.0, 8.0, 10.0} || 1.0 <= s <= 1.5
    ensures 1.0 <= Score(item, query) <= 1.5 ==>
      var q := Normalize(query);
      !Contains(Lower(item.title), q) && !Contains(Lower(item.action), q) && !InKeyword(item, q)
  {
    var q := Normalize(query);
    FuzzyBounds(AllText(item), q, 0);
    var fuzzy := Fuzzy(AllText(item), q, 0);
    if q != "" && fuzzy.Some? { Average(fuzzy.value, |q| as real); }
    if q == "" { EmptyIsContained(Lower(item.title)); }
  }

  lemma Average(sum: real, n: real)
    requires n > 0.0 && n <= sum <= 1.5 * n
    ensures 1.0 <= sum / n <= 1.5
  {
  }

  // match_score as it is computed: substrings first, then the search character by character.
  method MatchScore(item: PaletteItem, query: string) returns (score: real)
    ensures score == Score(item, query)
  {
    hide Normalize, Lower, Contains, Fuzzy, AllText;
    if query == "" { return 1.0; }
    var q := Normalize(query);
    if Contains(Lower(item.title), q) { return 10.0; }
    if Contains(Lower(item.action), q) { return 8.0; }
    for i := 0 to |item.keywords|
      invariant forall k :: 0 <= k < i ==> !Contains(Lower(item.keywords[k]), q)
    {
      if Contains(Lower(item.keywords[i]), q) { return 6.0; }
    }
    var fuzzy := FuzzySearch(AllText(item), q);
    if q == "" { EmptyIsContained(Lower(item.title)); }
    if fuzzy.None? { return 0.0; }
    score := fuzzy.value / |q| as real;
  }

  method FuzzySearch(text: string, q: string) returns (result: Option<real>)
    ensures result == Fuzzy(text, q, 0)
  {
    var idx, score := 0, 0.0;
    assert q[0..] == q;
    for i := 0 to |q|
      invariant Continues(Fuzzy(text, q, 0), score, Fuzzy(text, q[i..], idx))
    {
      assert q[i..][0] == q[i] && q[i..][1..] == q[i + 1..];
      var found := FindChar(text, q[i], idx);
      if found.None? { return None; }
      score := score + if found.value == idx then 1.5 else 1.0;
      idx := found.value + 1;
    }
    return Some(score);
  }

  // The whole search scores what has been scored so far plus what is still to come.
  predicate Continues(whole: Option<real>, soFar: real, rest: Option<real>) {
    match rest
    case None => whole == None
    case Some(more) => whole == Some(soFar + more)
  }

  // ---------- Extending a query ----------

  lemma {:induction false} StripLeftConcat(a: string, b: string)
    ensures StripLeft(a + b) == if StripLeft(a) == "" then StripLeft(b) else StripLeft(a) + b
  {
    if a == "" {
      assert a + b == b;
    } else {
      assert (a + b)[1..] == a[1..] + b;
      if IsSpace(a[0]) { StripLeftConcat(a[1..], b); }
    }
  }

  lemma {:induction false} StripRightExtends(a: string, b: string)
    ensures StripRight(a) <= StripRight(a + b)
    ensures StripRight(a) <= a
  {
    if b != "" {
      var front := b[..|b| - 1];
      StripRightExtends(a, front);
      assert (a + b)[..|a + b| - 1] == a + front;
      assert a <= a + b;
    } else if a != "" {
      assert a + b == a;
      StripRightExtends(a[..|a| - 1], "");
      assert a[..|a| - 1] <= a;
    }
  }

  function Strip(s: string): string {
    StripRight(StripLeft(s))
  }

  lemma StripExtends(a: string, b: string)
    ensures Strip(a) <= Strip(a + b)
  {
    StripLeftConcat(a, b);
    if StripLeft(a) != "" { StripRightExtends(StripLeft(a), b); }
  }

  lemma NormalizeExtends(query: string, more: string)
    ensures Normalize(query) <= Normalize(query + more)
  {
    assert Lower(query + more) == Lower(query) + Lower(more);
    StripExtends(Lower(query), Lower(more));
  }

  // An item that matches a longer query matches the shorter one.
  lemma LongerMatchesLess(item: PaletteItem, query: string, longer: string)
    requires query != "" && query <= longer && Score(item, longer) > 0.0
    ensures Score(item, query) > 0.0
  {
    assert longer == query + longer[|query|..];
    NormalizeExtends(query, longer[|query|..]);
    ScorePositiveIff(item, longer);
    ScorePositiveIff(item, query);
    PrefixEmbeds(Normalize(query), Normalize(longer), AllText(item));
  }

  // ---------- search_commands ----------

  function ScoreKey(query: string): PaletteItem -> real {
    (x: PaletteItem) => -Score(x, query)
  }

  function Matching(items: seq<PaletteItem>, query: string): (r: seq<PaletteItem>)
    ensures forall x :: x in r <==> x in items && Score(x, query) > 0.0
  {
    if items == [] then []
    else
      var front, last := Matching(items[..|items| - 1], query), items[|items| - 1];
      if Score(last, query) > 0.0 then front + [last] else front
  }

  function OfKind(items: seq<PaletteItem>, power: bool): (r: seq<PaletteItem>)
    ensures forall x :: x in r <==> x in items && x.isPower == power
  {
    if items == [] then []
    else
      var front, last := OfKind(items[..|items| - 1], power), items[|items| - 1];
      if last.isPower == power then front + [last] else front
  }

  function Ranked(items: seq<PaletteItem>, query: string): seq<PaletteItem> {
    Matching(Sort(items, ScoreKey(query)), query)
  }

  function Search(all: seq<PaletteItem>, query: string, includePower: bool): seq<PaletteItem> {
    var commands := if includePower then all else OfKind(all, false);
    if query == "" then commands
    else if query[0] == '>' then
      var powerQuery := Strip(query[1..]);
      if powerQuery == "" then OfKind(all, true) else Ranked(OfKind(all, true), powerQuery)
    else Ranked(commands, query)
  }

  lemma {:induction false} MatchingInOrder(items: seq<PaletteItem>, query: string)
    requires InOrder(items, ScoreKey(query))
    ensures InOrder(Matching(items, query), ScoreKey(query))
  {
    if items != [] {
      var front, last := items[..|items| - 1], items[|items| - 1];
      assert forall i :: 0 <= i < |front| ==> front[i] == items[i];
      MatchingInOrder(front, query);
      LastIsGreatest(items, ScoreKey(query));
      hide Score;
      if Score(last, query) > 0.0 { AppendInOrder(Matching(front, query), last, ScoreKey(query)); }
    }
  }

  lemma {:induction false} MatchingKeepsTies(items: seq<PaletteItem>, query: string, score: real)
    requires score > 0.0
    ensures WithKey(Matching(items, query), ScoreKey(query), -score) == WithKey(items, ScoreKey(query), -score)
  {
    if items != [] {
      var front, last := items[..|items| - 1], items[|items| - 1];
      MatchingKeepsTies(front, query, score);
      WithKeyAppend(Matching(front, query), last, ScoreKey(query), -score);
    }
  }

  // The results are the matching items, best first ...
  lemma RankedIs(items: seq<PaletteItem>, query: string)
    ensures InOrder(Ranked(items, query), ScoreKey(query))
    ensures forall x :: x in Ranked(items, query) <==> x in items && Score(x, query) > 0.0
  {
    hide Score, Sort;
    SortInOrder(items, ScoreKey(query));
    MatchingInOrder(Sort(items, ScoreKey(query)), query);
  }

  // ... those of one score in their original order.
  lemma RankedKeepsTies(items: seq<PaletteItem>, query: string, score: real)
    requires score > 0.0
    ensures WithKey(Ranked(items, query), ScoreKey(query), -score) == WithKey(items, ScoreKey(query), -score)
  {
    hide Score, Sort, WithKey;
    SortKeepsTies(items, ScoreKey(query), -score);
    MatchingKeepsTies(Sort(items, ScoreKey(query)), query, score);
  }

  lemma SearchedIff(all: seq<PaletteItem>, query: string, includePower: bool, x: PaletteItem)
    ensures x in Search(all, query, includePower) <==>
      && x in all
      && (if query == "" then includePower || !x.isPower
          else if query[0] == '>' then x.isPower && (Strip(query[1..]) == "" || Score(x, Strip(query[1..])) > 0.0)
          else (includePower || !x.isPower) && Score(x, query) > 0.0)
  {
  }

  // The power query after the prefix is empty or matches x.
  predicate PowerMatches(x: PaletteItem, more: string)
    requires more != ""
  {
    x.isPower && (Strip(more[1..]) == "" || Score(x, Strip(more[1..])) > 0.0)
  }

  // Extending a query never adds a result, with one exception: from the empty query, which hides the
  // power commands, to a power query that matches one of them.
  lemma ExtendingNarrowsIff(all: seq<PaletteItem>, query: string, more: string, includePower: bool)
    ensures (forall x :: x in Search(all, query + more, includePower) ==> x in Search(all, query, includePower)) <==>
      !(query == "" && !includePower && more != "" && more[0] == '>' && exists x :: x in all && PowerMatches(x, more))
  {
    var longer := query + more;
    if query == "" && !includePower && more != "" && more[0] == '>' {
      assert longer == more;
      forall x | x in all ensures PowerMatches(x, more) <==> x in Search(all, longer, includePower) {
        SearchedIff(all, longer, includePower, x);
      }
      forall x | x in all && PowerMatches(x, more) ensures x !in Search(all, query, includePower) {
        SearchedIff(all, query, includePower, x);
      }
      forall x | x in Search(all, longer, includePower) ensures x in all { SearchedIff(all, longer, includePower, x); }
    } else {
      forall x | x in Search(all, longer, includePower) ensures x in Search(all, query, includePower) {
        StaysFound(all, query, more, includePower, x);
      }
    }
  }

  // For example, typing the prefix brings up a power command.
  lemma PrefixAddsPower(x: PaletteItem)
    requires x.isPower
    ensures x !in Search([x], "", false) && x in Search([x], ">", false)
  {
    SearchedIff([x], "", false, x);
    SearchedIff([x], ">", false, x);
    assert ">"[1..] == "";
  }

  lemma StaysFound(all: seq<PaletteItem>, query: string, more: string, includePower: bool, x: PaletteItem)
    requires x in Search(all, query + more, includePower)
    requires !(query == "" && more != "" && more[0] == '>' && !includePower)
    ensures x in Search(all, query, includePower)
  {
    hide Search, Score, Strip;
    var longer := query + more;
    SearchedIff(all, longer, includePower, x);
    SearchedIff(all, query, includePower, x);
    if query == "" {
      assert longer == more;
    } else if query[0] == '>' {
      assert longer[1..] == query[1..] + more;
      StripExtends(query[1..], more);
      var short, long := Strip(query[1..]), Strip(longer[1..]);
      if short != "" { LongerMatchesLess(x, short, long); }
    } else {
      LongerMatchesLess(x, query, longer);
    }
  }

  // ---------- CommandHistory ----------

  // The distinct elements, in the order in which they first occur.
  ghost function Firsts(s: seq<string>): seq<string> {
    if s == [] then []
    else Firsts(s[..|s| - 1]) + if s[|s| - 1] in s[..|s| - 1] then [] else [s[|s| - 1]]
  }

  lemma {:induction false} FirstsDistinct(s: seq<string>)
    ensures NoDup(Firsts(s)) && forall x :: x in Firsts(s) <==> x in s
  {
    if s != [] {
      var front, last := s[..|s| - 1], s[|s| - 1];
      FirstsDistinct(front);
      assert s == front + [last];
      FirstsAppend(front, last);
      if last in front {
        assert Firsts(s) == Firsts(front);
      } else {
        NoDupAppend(Firsts(front), last);
      }
    }
  }

  ghost function Reversed(s: seq<string>): seq<string> {
    if s == [] then [] else [s[|s| - 1]] + Reversed(s[..|s| - 1])
  }

  // The most recent distinct actions of a trace of calls.
  ghost function RecentOf(trace: seq<string>, maxSize: int): seq<string> {
    Take(Firsts(Reversed(trace)), AtLeastZero(maxSize))
  }

  lemma {:induction false} RemoveAppend(list: seq<string>, z: string, a: string)
    ensures RemoveFirst(list + [z], a) ==
      if a in list then RemoveFirst(list, a) + [z] else if z == a then list else list + [z]
    ensures a !in list ==> RemoveFirst(list, a) == list
  {
    if list != [] {
      assert (list + [z])[1..] == list[1..] + [z];
      RemoveAppend(list[1..], z, a);
      assert list == [list[0]] + list[1..];
    }
  }

  lemma {:induction false} FirstsCons(a: string, s: seq<string>)
    ensures Firsts([a] + s) == [a] + RemoveFirst(Firsts(s), a)
  {
    hide Firsts, RemoveFirst;
    if s == [] {
      FirstsOne(a);
    } else {
      var front, z := s[..|s| - 1], s[|s| - 1];
      FirstsCons(a, front);
      FirstsAppend([a] + front, z);
      FirstsAppend(front, z);
      assert [a] + s == [a] + front + [z] && s == front + [z];
      FirstsDistinct(front);
      assert z in [a] + front <==> z == a || z in front;
      RemoveNext(Firsts(front), z, a, z in front);
    }
  }

  lemma RemoveNext(f: seq<string>, z: string, a: string, present: bool)
    requires present <==> z in f
    ensures [a] + RemoveFirst(if present then f else f + [z], a) ==
      if z == a || present then [a] + RemoveFirst(f, a) else [a] + RemoveFirst(f, a) + [z]
  {
    hide RemoveFirst;
    RemoveAppend(f, z, a);
    if !present && z != a { assert [a] + (RemoveFirst(f, a) + [z]) == [a] + RemoveFirst(f, a) + [z]; }
  }

  lemma FirstsOne(a: string)
    ensures Firsts([a] + []) == [a] + RemoveFirst(Firsts([]), a)
  {
    assert [a] + [] == [a] && [a][..0] == [];
    assert Firsts([]) == [];
  }

  lemma FirstsAppend(s: seq<string>, z: string)
    ensures Firsts(s + [z]) == if z in s then Firsts(s) else Firsts(s) + [z]
  {
    assert (s + [z])[..|s|] == s;
  }

  lemma {:induction false} RemoveTake(list: seq<string>, n: nat, a: string)
    requires 0 < n
    ensures Take([a] + RemoveFirst(Take(list, n), a), n) == Take([a] + RemoveFirst(list, a), n)
  {
    if |list| > n {
      RemoveInFront(list, n, a);
      var x, y := RemoveFirst(list[..n], a), RemoveFirst(list, a);
      assert ([a] + x)[..n] == [a] + x[..n - 1];
      assert ([a] + y)[..n] == [a] + y[..n - 1];
    }
  }

  lemma {:induction false} RemoveInFront(list: seq<string>, n: nat, a: string)
    requires 0 < n <= |list|
    ensures RemoveFirst(list[..n], a)[..n - 1] == RemoveFirst(list, a)[..n - 1]
  {
    assert list[..n][0] == list[0] && list[..n][1..] == list[1..][..n - 1];
    if list[0] != a && n > 1 {
      RemoveInFront(list[1..], n - 1, a);
      var x, y := RemoveFirst(list[1..][..n - 1], a), RemoveFirst(list[1..], a);
      assert ([list[0]] + x)[..n - 1] == [list[0]] + x[..n - 2];
      assert ([list[0]] + y)[..n - 1] == [list[0]] + y[..n - 2];
    }
  }

  // Recording moves or puts the action to the front and cuts the list.
  lemma RecordGives(trace: seq<string>, maxSize: int, action: string)
    ensures RecentOf(trace + [action], maxSize) ==
      Take([action] + RemoveFirst(RecentOf(trace, maxSize), action), AtLeastZero(maxSize))
  {
    assert (trace + [action])[..|trace|] == trace;
    FirstsCons(action, Reversed(trace));
    if maxSize > 0 { RemoveTake(Firsts(Reversed(trace)), maxSize, action); }
  }

  // A smaller history is a prefix of a larger one on the same trace.
  lemma CapacityPrefix(trace: seq<string>, k: nat)
    ensures RecentOf(trace, k) <= RecentOf(trace, k + 1)
    ensures |RecentOf(trace, k)| <= k && NoDup(RecentOf(trace, k))
  {
    var all := Firsts(Reversed(trace));
    FirstsDistinct(Reversed(trace));
    NoDupMeansDistinct(all);
    NoDupMeansDistinct(Take(all, k));
  }

  class CommandHistory {
    const maxSize: int
    var history: seq<string>
    ghost var trace: seq<string>

    // The history is what the calls since the last clear leave.
    ghost predicate Valid()
      reads this
    {
      history == RecentOf(trace, maxSize)
    }

    constructor (maxSize: int)
      ensures Valid() && this.maxSize == maxSize && trace == []
    {
      this.maxSize, history, trace := maxSize, [], [];
    }

    method Record(action: string)
      requires Valid()
      modifies this
      ensures Valid() && trace == old(trace) + [action]
    {
      RecordGives(trace, maxSize, action);
      RemoveAppend(history, action, action);
      trace := trace + [action];
      if action in history { history := RemoveFirst(history, action); }
      history := [action] + history;
      if |history| > maxSize {
        // A negative bound cuts from the end.
        history := if maxSize >= 0 then history[..maxSize] else history[..AtLeastZero(|history| + maxSize)];
      }
    }

    method Recent(limit: nat) returns (actions: seq<string>)
      requires Valid()
      ensures actions == Take(RecentOf(trace, maxSize), limit)
    {
      actions := Take(history, limit);
    }

    method Clear()
      modifies this
      ensures Valid() && history == [] && trace == []
    {
      history, trace := [], [];
    }
  }
}
