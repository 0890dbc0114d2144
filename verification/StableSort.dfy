// The built-in sorted(list, key=...): ascending by key, equal keys in their original order.

module StableSort {
  import opened Sequences

  // x goes after everything whose key is not greater.
  function Insert<T(!new)>(sorted: seq<T>, x: T, key: T -> real): (r: seq<T>)
    ensures |r| == |sorted| + 1
    ensures forall y :: y in r <==> y in sorted || y == x
    ensures NoDup(sorted) && x !in sorted ==> NoDup(r)
  {
    if sorted == [] then [x]
    else
      var front, last := sorted[..|sorted| - 1], sorted[|sorted| - 1];
      assert sorted == front + [last];
      if key(last) <= key(x) then sorted + [x] else Insert(front, x, key) + [last]
  }

  function Sort<T(!new)>(s: seq<T>, key: T -> real): (r: seq<T>)
    ensures |r| == |s|
    ensures forall y :: y in r <==> y in s
    ensures NoDup(s) ==> NoDup(r)
  {
    if s == [] then []
    else
      assert s == s[..|s| - 1] + [s[|s| - 1]];
      Insert(Sort(s[..|s| - 1], key), s[|s| - 1], key)
  }

  // ---------- The result is in order ----------

  ghost predicate InOrder<T>(s: seq<T>, key: T -> real) {
    forall i, j :: 0 <= i < j < |s| ==> key(s[i]) <= key(s[j])
  }

  lemma AppendInOrder<T>(s: seq<T>, x: T, key: T -> real)
    requires InOrder(s, key) && forall y :: y in s ==> key(y) <= key(x)
    ensures InOrder(s + [x], key)
  {
    forall i | 0 <= i < |s| ensures key(s[i]) <= key(x) { assert s[i] in s; }
  }

  lemma LastIsGreatest<T>(s: seq<T>, key: T -> real)
    requires InOrder(s, key) && s != []
    ensures forall y :: y in s ==> key(y) <= key(s[|s| - 1])
  {
    forall y | y in s ensures key(y) <= key(s[|s| - 1]) {
      var i :| 0 <= i < |s| && s[i] == y;
    }
  }

  lemma {:induction false} InsertInOrder<T(!new)>(s: seq<T>, x: T, key: T -> real)
    requires InOrder(s, key)
    ensures InOrder(Insert(s, x, key), key)
  {
    if s != [] {
      var front, last := s[..|s| - 1], s[|s| - 1];
      assert s == front + [last];
      LastIsGreatest(s, key);
      if key(last) <= key(x) {
        AppendInOrder(s, x, key);
      } else {
        assert forall i :: 0 <= i < |front| ==> front[i] == s[i];
        InsertInOrder(front, x, key);
        hide Insert;
        AppendInOrder(Insert(front, x, key), last, key);
      }
    }
  }

  lemma {:induction false} SortInOrder<T(!new)>(s: seq<T>, key: T -> real)
    ensures InOrder(Sort(s, key), key)
  {
    if s != [] {
      SortInOrder(s[..|s| - 1], key);
      InsertInOrder(Sort(s[..|s| - 1], key), s[|s| - 1], key);
    }
  }

  // ---------- Equal keys keep their order ----------

  ghost function WithKey<T>(s: seq<T>, key: T -> real, v: real): seq<T> {
    if s == [] then []
    else WithKey(s[..|s| - 1], key, v) + if key(s[|s| - 1]) == v then [s[|s| - 1]] else []
  }

  lemma NoneWithKey<T>(key: T -> real, v: real)
    ensures WithKey([], key, v) == []
  {
  }

  lemma WithKeyAppend<T>(s: seq<T>, x: T, key: T -> real, v: real)
    ensures WithKey(s + [x], key, v) == WithKey(s, key, v) + if key(x) == v then [x] else []
  {
    assert (s + [x])[..|s|] == s;
  }

  lemma {:induction false} InsertKeepsTies<T(!new)>(s: seq<T>, x: T, key: T -> real, v: real)
    ensures WithKey(Insert(s, x, key), key, v) == WithKey(s, key, v) + if key(x) == v then [x] else []
  {
    if s == [] || key(s[|s| - 1]) <= key(x) {
      WithKeyAppend(s, x, key, v);
    } else {
      var front, last := s[..|s| - 1], s[|s| - 1];
      InsertKeepsTies(front, x, key, v);
      WithKeyAppend(Insert(front, x, key), last, key, v);
    }
  }

  // The elements with a given key come out in the order in which they went in.
  lemma {:induction false} SortKeepsTies<T(!new)>(s: seq<T>, key: T -> real, v: real)
    ensures WithKey(Sort(s, key), key, v) == WithKey(s, key, v)
  {
    if s != [] {
      SortKeepsTies(s[..|s| - 1], key, v);
      InsertKeepsTies(Sort(s[..|s| - 1], key), s[|s| - 1], key, v);
    }
  }

  // ---------- Where the greatest element goes ----------

  lemma {:induction false} InsertBefore<T(!new)>(a: seq<T>, b: seq<T>, x: T, key: T -> real)
    requires forall y :: y in b ==> key(x) < key(y)
    ensures Insert(a + b, x, key) == Insert(a, x, key) + b
  {
    if b == [] {
      assert a + b == a;
      assert Insert(a, x, key) + b == Insert(a, x, key);
    } else {
      var front, last := b[..|b| - 1], b[|b| - 1];
      assert (a + b)[..|a + b| - 1] == a + front;
      InsertBefore(a, front, x, key);
      assert Insert(a, x, key) + b == Insert(a, x, key) + front + [last];
    }
  }

  // What is as great as k goes to the end, what is less goes before k.
  lemma InsertAround<T(!new)>(a: seq<T>, k: T, b: seq<T>, y: T, key: T -> real)
    requires key(y) <= key(k) && forall x :: x in b ==> key(x) == key(k)
    ensures Insert(a + [k] + b, y, key) == if key(y) == key(k) then a + [k] + (b + [y]) else Insert(a, y, key) + [k] + b
  {
    if key(y) == key(k) {
      InsertLast(a + [k] + b, y, key);
      assert a + [k] + (b + [y]) == a + [k] + b + [y];
    } else {
      assert a + [k] + b == a + ([k] + b);
      InsertBefore(a, [k] + b, y, key);
      assert Insert(a, y, key) + ([k] + b) == Insert(a, y, key) + [k] + b;
    }
  }

  lemma InsertLast<T(!new)>(s: seq<T>, y: T, key: T -> real)
    requires s != [] && key(s[|s| - 1]) <= key(y)
    ensures Insert(s, y, key) == s + [y]
  {
  }

  // A greatest element, the one at i, ends up before exactly those later elements that tie with it.
  lemma {:induction false} SortAround<T(!new)>(s: seq<T>, i: nat, key: T -> real) returns (a: seq<T>, b: seq<T>)
    requires i < |s| && forall x :: x in s ==> key(x) <= key(s[i])
    ensures Sort(s, key) == a + [s[i]] + b && b == WithKey(s[i + 1..], key, key(s[i]))
    ensures forall x :: x in b ==> key(x) == key(s[i])
    decreases |s|
  {
    hide Sort, Insert, WithKey;
    var front, last := s[..|s| - 1], s[|s| - 1];
    assert s == front + [last];
    SortNext(s, key);
    if i == |front| {
      a, b := Sort(front, key), [];
      GreatestLast(a, last, key);
      NoneWithKey(key, key(last));
      assert s[i + 1..] == [] && a + [last] + b == a + [last];
    } else {
      a, b := SortAround(front, i, key);
      assert s[i + 1..] == front[i + 1..] + [last];
      WithKeyAppend(front[i + 1..], last, key, key(s[i]));
      InsertAround(a, s[i], b, last, key);
      if key(last) == key(s[i]) { b := b + [last]; } else { a := Insert(a, last, key); }
    }
  }

  lemma GreatestLast<T(!new)>(sorted: seq<T>, x: T, key: T -> real)
    requires forall y :: y in sorted ==> key(y) <= key(x)
    ensures Insert(sorted, x, key) == sorted + [x]
  {
    if sorted != [] { assert sorted[|sorted| - 1] in sorted; }
  }

  lemma SortNext<T(!new)>(s: seq<T>, key: T -> real)
    requires s != []
    ensures Sort(s, key) == Insert(Sort(s[..|s| - 1], key), s[|s| - 1], key)
  {
  }
}
