// Optional values and small functions on numbers and lists that several components use.

module Basics {
  datatype Option<+T> = None | Some(value: T)

  function Min(a: int, b: int): (m: int)
    ensures m <= a && m <= b && m in {a, b}
  {
    if a < b then a else b
  }

  function Max(a: int, b: int): (m: int)
    ensures a <= m && b <= m && m in {a, b}
  {
    if a < b then b else a
  }

  function AtLeastZero(n: int): (r: nat)
    ensures n <= r && r in {0, n}
  {
    if n < 0 then 0 else n
  }

  // list[:n]
  function Take<T>(list: seq<T>, n: nat): (r: seq<T>)
    ensures r <= list && |r| <= n && (|r| < n ==> r == list)
  {
    if |list| <= n then list else list[..n]
  }

  // list.remove(x): the first occurrence goes.
  function RemoveFirst<T(==)>(list: seq<T>, x: T): (r: seq<T>)
    ensures |r| == |list| - if x in list then 1 else 0
  {
    if list == [] then []
    else if list[0] == x then list[1..]
    else [list[0]] + RemoveFirst(list[1..], x)
  }

  // ---------- Strings, on ASCII ----------

  function LowerChar(c: char): char {
    if 'A' <= c <= 'Z' then c - 'A' + 'a' else c
  }

  // str.lower
  function Lower(s: string): (r: string)
    ensures |r| == |s| && forall i :: 0 <= i < |s| ==> r[i] == LowerChar(s[i])
  {
    seq(|s|, i requires 0 <= i < |s| => LowerChar(s[i]))
  }

  // No capital is left, and nothing else has changed.
  lemma LoweredAt(s: string, i: nat)
    requires i < |s|
    ensures !('A' <= Lower(s)[i] <= 'Z')
    ensures Lower(s)[i] as int == s[i] as int + if 'A' <= s[i] <= 'Z' then 32 else 0
  {
  }

  predicate Occurs(s: string, t: string, i: int) {
    0 <= i && i + |t| <= |s| && s[i..i + |t|] == t
  }
}
