// Facts about sequences that several components use.

module Sequences {
  // No element of s occurs in the part of s before it.
  ghost predicate NoDup<T>(s: seq<T>) {
    s == [] || (s[|s| - 1] !in s[..|s| - 1] && NoDup(s[..|s| - 1]))
  }

  lemma {:induction false} NoDupMeansDistinct<T>(s: seq<T>)
    ensures NoDup(s) <==> forall i, j :: 0 <= i < j < |s| ==> s[i] != s[j]
  {
    if s != [] {
      var front := s[..|s| - 1];
      NoDupMeansDistinct(front);
      if NoDup(s) {
        forall i, j | 0 <= i < j < |s| ensures s[i] != s[j] {
          assert front[i] == s[i];
          assert j < |front| ==> front[j] == s[j];
        }
      } else if s[|s| - 1] in front {
        var i :| 0 <= i < |front| && front[i] == s[|s| - 1];
        assert s[i] == s[|s| - 1];
      } else {
        var i, j :| 0 <= i < j < |front| && front[i] == front[j];
        assert s[i] == s[j];
      }
    }
  }

  ghost function Elems<T(!new)>(s: seq<T>): (r: set<T>)
    ensures forall x :: x in r <==> x in s
  {
    set x | x in s
  }

  lemma {:induction false} Pigeonhole<T>(s: seq<T>, pool: set<T>)
    requires NoDup(s) && forall x :: x in s ==> x in pool
    ensures |s| <= |pool|
  {
    if s != [] {
      var last := s[|s| - 1];
      Pigeonhole(s[..|s| - 1], pool - {last});
    }
  }

  lemma {:induction false} NoDupCount<T(!new)>(s: seq<T>)
    requires NoDup(s)
    ensures |Elems(s)| == |s|
  {
    if s != [] {
      var front, last := s[..|s| - 1], s[|s| - 1];
      NoDupCount(front);
      assert Elems(s) == Elems(front) + {last};
    }
  }

  lemma NoDupAt<T>(s: seq<T>, i: nat)
    requires NoDup(s) && i < |s|
    ensures s[i] !in s[..i]
  {
    NoDupMeansDistinct(s);
  }

  lemma NoDupAppend<T(!new)>(s: seq<T>, x: T)
    requires NoDup(s) && x !in s
    ensures NoDup(s + [x]) && Elems(s + [x]) == Elems(s) + {x}
  {
    assert (s + [x])[..|s|] == s;
  }

  lemma NoDupTail<T(!new)>(s: seq<T>)
    requires NoDup(s) && s != []
    ensures NoDup(s[1..]) && s[0] !in s[1..] && Elems(s) == {s[0]} + Elems(s[1..])
  {
    NoDupMeansDistinct(s);
    NoDupMeansDistinct(s[1..]);
    assert s == [s[0]] + s[1..];
  }

  lemma NoDupSplit<T>(s: seq<T>, k: nat)
    requires NoDup(s) && k <= |s|
    ensures forall x :: x in s[..k] ==> x !in s[k..]
  {
    NoDupMeansDistinct(s);
    assert forall j :: 0 <= j < |s| - k ==> s[k..][j] == s[k + j];
  }

  lemma NoDupFits<T(!new), U>(s: seq<T>, m: map<T, U>)
    requires NoDup(s) && Elems(s) <= m.Keys
    ensures |s| <= |m|
  {
    Pigeonhole(s, m.Keys);
    assert |m.Keys| == |m|;
  }

  lemma EqualCount<T>(a: set<T>, b: set<T>)
    requires a <= b && |a| == |b|
    ensures a == b
  {
    assert b == a + (b - a);
    assert |b - a| == 0;
  }

  lemma {:induction false} NoDupConcat<T>(a: seq<T>, b: seq<T>)
    requires NoDup(a) && NoDup(b) && forall x :: x in b ==> x !in a
    ensures NoDup(a + b)
  {
    if b == [] {
      assert a + b == a;
    } else {
      NoDupConcat(a, b[..|b| - 1]);
      assert (a + b)[..|a + b| - 1] == a + b[..|b| - 1];
    }
  }

  lemma TakeCons<T(!new)>(s: seq<T>, k: nat)
    requires k < |s|
    ensures forall x :: x in s[..k + 1] <==> x == s[0] || x in s[1..][..k]
  {
    assert s[..k + 1] == [s[0]] + s[1..][..k];
  }

  lemma OnlyElement<T>(s: seq<T>, x: T)
    requires NoDup(s) && forall y :: y in s <==> y == x
    ensures s == [x]
  {
    NoDupMeansDistinct(s);
    assert x in s;
    assert forall i :: 0 <= i < |s| ==> s[i] in s;
  }

  function Filter<T(!new)>(s: seq<T>, keep: T -> bool): (r: seq<T>)
    ensures forall x :: x in r <==> x in s && keep(x)
    ensures NoDup(s) ==> NoDup(r)
  {
    if s == [] then []
    else
      var front, last := Filter(s[..|s| - 1], keep), s[|s| - 1];
      if keep(last) then front + [last] else front
  }

  // How often x is listed in s.
  ghost function Times<T(!new)>(s: seq<T>, x: T): (t: nat)
    ensures t == 0 <==> x !in s
  {
    if s == [] then 0
    else
      assert x in s <==> x in s[..|s| - 1] || x == s[|s| - 1];
      Times(s[..|s| - 1], x) + if s[|s| - 1] == x then 1 else 0
  }

  lemma TimesAppend<T(!new)>(s: seq<T>, y: T)
    ensures forall x :: Times(s + [y], x) == Times(s, x) + if x == y then 1 else 0
  {
    assert (s + [y])[..|s|] == s;
  }
}
