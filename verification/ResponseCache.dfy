// openvs/cache/response_cache.py: the response cache with a time to live and eviction of the oldest.

module ResponseCaches {
  import opened Basics
  import opened Sequences
  import opened StableSort

  // The hash of model, temperature and prompt.
  type Key = string

  datatype Entry = Entry(response: string, timestamp: real, hits: nat)

  // A dictionary: its keys in insertion order, and its contents.
  datatype Cache = Cache(order: seq<Key>, entries: map<Key, Entry>) {
    ghost predicate Valid() {
      NoDup(order) && forall k :: k in order <==> k in entries
    }
  }

  const EMPTY := Cache([], map[])

  function Without(order: seq<Key>, k: Key): (r: seq<Key>)
    ensures forall x :: x in r <==> x in order && x != k
    ensures NoDup(order) ==> NoDup(r)
  {
    if order == [] then []
    else
      var front, last := Without(order[..|order| - 1], k), order[|order| - 1];
      if last == k then front else front + [last]
  }

  lemma {:induction false} WithoutLength(order: seq<Key>, k: Key)
    requires NoDup(order)
    ensures |Without(order, k)| == |order| - if k in order then 1 else 0
  {
    if order != [] {
      WithoutLength(order[..|order| - 1], k);
      assert order == order[..|order| - 1] + [order[|order| - 1]];
    }
  }

  function Delete(c: Cache, k: Key): Cache {
    Cache(Without(c.order, k), c.entries - {k})
  }

  // Assigning to a key that is there keeps its place.
  function Store(c: Cache, k: Key, e: Entry): Cache {
    Cache(if k in c.entries then c.order else c.order + [k], c.entries[k := e])
  }

  function DeleteAll(c: Cache, keys: seq<Key>): Cache {
    if keys == [] then c else Delete(DeleteAll(c, keys[..|keys| - 1]), keys[|keys| - 1])
  }

  lemma DeleteValid(c: Cache, k: Key)
    requires c.Valid()
    ensures Delete(c, k).Valid()
  {
  }

  lemma {:induction false} DeleteAllGives(c: Cache, keys: seq<Key>)
    requires c.Valid()
    ensures DeleteAll(c, keys).Valid() && DeleteAll(c, keys).entries == c.entries - Elems(keys)
  {
    if keys == [] {
      assert Elems(keys) == {} && c.entries - {} == c.entries;
    } else {
      var front, last := keys[..|keys| - 1], keys[|keys| - 1];
      hide Without, NoDup, Cache.Valid;
      DeleteAllGives(c, front);
      DeleteValid(DeleteAll(c, front), last);
      assert Elems(keys) == Elems(front) + {last} by { assert keys == front + [last]; }
      hide Elems;
      assert c.entries - Elems(front) - {last} == c.entries - (Elems(front) + {last});
    }
  }

  lemma {:induction false} DeleteAllLength(c: Cache, keys: seq<Key>)
    requires c.Valid() && NoDup(keys) && forall k :: k in keys ==> k in c.order
    ensures |DeleteAll(c, keys).order| == |c.order| - |keys|
  {
    if keys != [] {
      var front, last := keys[..|keys| - 1], keys[|keys| - 1];
      assert forall k :: k in front ==> k in keys;
      DeleteAllLength(c, front);
      DeleteAllGives(c, front);
      var d := DeleteAll(c, front);
      assert last in c.entries && last !in Elems(front);
      assert last in d.order;
      WithoutLength(d.order, last);
    }
  }

  // ---------- _evict_if_needed ----------

  // The sort key; only keys of the cache are sorted.
  function TimeOf(entries: map<Key, Entry>): Key -> real {
    k => if k in entries then entries[k].timestamp else 0.0
  }

  function Excess(c: Cache, maxEntries: int): (n: nat)
    ensures n <= |c.order|
  {
    if |c.order| <= AtLeastZero(maxEntries) then 0 else |c.order| - AtLeastZero(maxEntries)
  }

  function Evicted(c: Cache, maxEntries: int): Cache {
    DeleteAll(c, Sort(c.order, TimeOf(c.entries))[..Excess(c, maxEntries)])
  }

  lemma CutGives(c: Cache, maxEntries: int)
    requires c.Valid()
    ensures var sorted, n := Sort(c.order, TimeOf(c.entries)), Excess(c, maxEntries);
      && |sorted| == |c.order| && NoDup(sorted) && InOrder(sorted, TimeOf(c.entries))
      && Evicted(c, maxEntries) == DeleteAll(c, sorted[..n]) && NoDup(sorted[..n])
      && forall k :: k in sorted[..n] ==> k in c.order
  {
    var sorted, n := Sort(c.order, TimeOf(c.entries)), Excess(c, maxEntries);
    SortInOrder(c.order, TimeOf(c.entries));
    NoDupMeansDistinct(sorted);
    NoDupMeansDistinct(sorted[..n]);
    assert forall k :: k in sorted[..n] ==> k in sorted;
  }

  lemma OlderFirst(sorted: seq<Key>, key: Key -> real, n: nat, gone: Key, kept: Key)
    requires InOrder(sorted, key) && n <= |sorted|
    requires gone in sorted[..n] && kept in sorted && kept !in sorted[..n]
    ensures key(gone) <= key(kept)
  {
    var i :| 0 <= i < n && sorted[..n][i] == gone;
    assert sorted == sorted[..n] + sorted[n..];
    var j :| 0 <= j < |sorted[n..]| && sorted[n..][j] == kept;
    assert sorted[i] == gone && sorted[n + j] == kept;
  }

  // The cache is cut down to the bound, and what stays is unchanged.
  lemma EvictionGives(c: Cache, maxEntries: int)
    requires c.Valid()
    ensures var d := Evicted(c, maxEntries);
      && d.Valid() && |d.order| == |c.order| - Excess(c, maxEntries) <= AtLeastZero(maxEntries)
      && forall k :: k in d.entries ==> k in c.entries && d.entries[k] == c.entries[k]
  {
    hide Sort, InOrder, Evicted;
    var sorted, n := Sort(c.order, TimeOf(c.entries)), Excess(c, maxEntries);
    CutGives(c, maxEntries);
    DeleteAllGives(c, sorted[..n]);
    DeleteAllLength(c, sorted[..n]);
  }

  // Nothing that goes is newer than anything that stays.
  lemma OldestGo(c: Cache, maxEntries: int, gone: Key, kept: Key)
    requires c.Valid() && gone in c.entries
    requires gone !in Evicted(c, maxEntries).entries && kept in Evicted(c, maxEntries).entries
    ensures kept in c.entries && c.entries[gone].timestamp <= c.entries[kept].timestamp
  {
    hide Sort, InOrder, Evicted;
    var sorted, n := Sort(c.order, TimeOf(c.entries)), Excess(c, maxEntries);
    CutGives(c, maxEntries);
    DeleteAllGives(c, sorted[..n]);
    assert gone in Elems(sorted[..n]) && kept !in Elems(sorted[..n]);
    assert kept in c.order;
    OlderFirst(sorted, TimeOf(c.entries), n, gone, kept);
  }

  // ---------- Whether the key just put survives ----------

  // The keys among these that were stored at the same time as k.
  ghost function Ties(keys: seq<Key>, k: Key, entries: map<Key, Entry>): nat {
    |WithKey(keys, TimeOf(entries), TimeOf(entries)(k))|
  }

  // On a clock that does not run backwards the key just put survives the eviction exactly when fewer
  // than maxEntries keys that come after it in the dictionary carry the same time.
  lemma SurvivesIff(c: Cache, i: nat, maxEntries: int)
    requires c.Valid() && i < |c.order| && c.order[i] in c.entries
    requires forall x :: x in c.entries ==> c.entries[x].timestamp <= c.entries[c.order[i]].timestamp
    ensures c.order[i] in Evicted(c, maxEntries).entries <==>
      Excess(c, maxEntries) == 0 || Ties(c.order[i + 1..], c.order[i], c.entries) < maxEntries
  {
    var sorted, n := Sort(c.order, TimeOf(c.entries)), Excess(c, maxEntries);
    CutGives(c, maxEntries);
    var a, b := SortAround(c.order, i, TimeOf(c.entries));
    DeleteAllGives(c, sorted[..n]);
    NoDupMeansDistinct(sorted);
    assert sorted[|a|] == c.order[i];
    assert c.order[i] in sorted[..n] <==> |a| < n by {
      if |a| < n { assert sorted[..n][|a|] == c.order[i]; }
    }
  }

  lemma NotEvicted(c: Cache, maxEntries: int)
    requires c.Valid() && Excess(c, maxEntries) == 0
    ensures Evicted(c, maxEntries) == c
  {
    CutGives(c, maxEntries);
    assert Sort(c.order, TimeOf(c.entries))[..0] == [];
  }

  // ---------- get and put ----------

  function AfterPut(c: Cache, k: Key, response: string, now: real, maxEntries: int): Cache {
    Evicted(Store(c, k, Entry(response, now, 0)), maxEntries)
  }

  predicate Live(c: Cache, k: Key, now: real, ttl: real) {
    k in c.entries && now - c.entries[k].timestamp <= ttl
  }

  function AfterGet(c: Cache, k: Key, now: real, ttl: real): Cache {
    if k !in c.entries then c
    else if Live(c, k, now, ttl) then Store(c, k, c.entries[k].(hits := c.entries[k].hits + 1))
    else Delete(c, k)
  }

  lemma StoreValid(c: Cache, k: Key, e: Entry)
    requires c.Valid()
    ensures Store(c, k, e).Valid()
  {
    if k !in c.entries { NoDupAppend(c.order, k); }
  }

  // A live entry counts the hit and is otherwise unchanged, as is everything else; a get that finds
  // nothing live removes the key and nothing else.
  lemma GetGives(c: Cache, k: Key, now: real, ttl: real)
    requires c.Valid() && k in c.entries
    ensures var d, e := AfterGet(c, k, now, ttl), c.entries[k];
      && (now - e.timestamp <= ttl ==>
            d.order == c.order && d.entries == c.entries[k := Entry(e.response, e.timestamp, e.hits + 1)])
      && (now - e.timestamp > ttl ==> d.entries == c.entries - {k})
  {
  }

  // What was put has no hits yet; an entry that stays keeps its own.
  lemma PutGives(c: Cache, k: Key, response: string, now: real, maxEntries: int, x: Key)
    requires c.Valid()
    ensures var d := AfterPut(c, k, response, now, maxEntries);
      && (k in d.entries ==> d.entries[k] == Entry(response, now, 0))
      && (x != k && x in d.entries ==> x in c.entries && d.entries[x] == c.entries[x])
  {
    hide Evicted;
    StoreValid(c, k, Entry(response, now, 0));
    EvictionGives(Store(c, k, Entry(response, now, 0)), maxEntries);
  }

  // No entry is from after now.
  ghost predicate Past(c: Cache, now: real) {
    forall k :: k in c.entries ==> c.entries[k].timestamp <= now
  }

  // From a cache within the bound, the key just put survives exactly when the bound is at least one.
  lemma PutSurvivesIff(c: Cache, k: Key, response: string, now: real, maxEntries: int)
    requires c.Valid() && |c.order| <= AtLeastZero(maxEntries) && Past(c, now)
    ensures k in AfterPut(c, k, response, now, maxEntries).entries <==> maxEntries >= 1
  {
    hide Evicted, Sort, NoDup;
    var d := Store(c, k, Entry(response, now, 0));
    StoreValid(c, k, Entry(response, now, 0));
    if k in c.entries {
      assert k in c.order;
      NotEvicted(d, maxEntries);
    } else {
      var i := |c.order|;
      assert d.order[i] == k && d.order[i + 1..] == [];
      SurvivesIff(d, i, maxEntries);
    }
  }

  // ---------- Whole runs ----------

  datatype Op = Put(key: Key, response: string) | Get(key: Key) | Invalidate(key: Key) | Clear

  // The cache, the last put of each key that was not invalidated or cleared since, and the time.
  datatype World = World(cache: Cache, last: map<Key, (string, real)>, now: real)

  function Next(w: World, op: Op, now: real, maxEntries: int, ttl: real): World {
    match op
    case Put(k, response) => World(AfterPut(w.cache, k, response, now, maxEntries), w.last[k := (response, now)], now)
    case Get(k) => w.(cache := AfterGet(w.cache, k, now, ttl), now := now)
    case Invalidate(k) => World(Delete(w.cache, k), w.last - {k}, now)
    case Clear => World(EMPTY, map[], now)
  }

  // Every entry is the last put of its key.
  ghost predicate Refines(c: Cache, last: map<Key, (string, real)>) {
    forall k :: k in c.entries ==> k in last && last[k] == (c.entries[k].response, c.entries[k].timestamp)
  }

  ghost predicate Inv(w: World) {
    w.cache.Valid() && Past(w.cache, w.now) && Refines(w.cache, w.last)
  }

  predicate Fits(c: Cache, maxEntries: int) {
    |c.order| <= AtLeastZero(maxEntries)
  }

  lemma PutKeeps(w: World, k: Key, response: string, now: real, maxEntries: int, ttl: real)
    requires Inv(w) && w.now <= now
    ensures Inv(Next(w, Put(k, response), now, maxEntries, ttl))
    ensures Fits(Next(w, Put(k, response), now, maxEntries, ttl).cache, maxEntries)
  {
    hide Evicted, NoDup;
    var e := Entry(response, now, 0);
    StoreValid(w.cache, k, e);
    EvictionGives(Store(w.cache, k, e), maxEntries);
  }

  lemma GetKeeps(w: World, k: Key, now: real, maxEntries: int, ttl: real)
    requires Inv(w) && w.now <= now
    ensures Inv(Next(w, Get(k), now, maxEntries, ttl))
    ensures |Next(w, Get(k), now, maxEntries, ttl).cache.order| <= |w.cache.order|
  {
    if Live(w.cache, k, now, ttl) {
      StoreValid(w.cache, k, w.cache.entries[k].(hits := w.cache.entries[k].hits + 1));
    } else {
      DeleteValid(w.cache, k);
      WithoutLength(w.cache.order, k);
    }
    hide Without, NoDup;
  }

  // Every operation keeps the refinement, and only put can make the cache larger: after a put it is
  // within the bound, whatever was loaded.
  lemma StepKeeps(w: World, op: Op, now: real, maxEntries: int, ttl: real)
    requires Inv(w) && w.now <= now
    ensures Inv(Next(w, op, now, maxEntries, ttl))
    ensures op.Put? || Fits(w.cache, maxEntries) ==> Fits(Next(w, op, now, maxEntries, ttl).cache, maxEntries)
  {
    match op
    case Put(k, response) => PutKeeps(w, k, response, now, maxEntries, ttl);
    case Get(k) => GetKeeps(w, k, now, maxEntries, ttl);
    case Invalidate(k) =>
      DeleteValid(w.cache, k);
      WithoutLength(w.cache.order, k);
    case Clear =>
  }

  // A run is a list of operations, each with its time; the times do not decrease.
  ghost predicate LegalRun(w: World, ops: seq<(Op, real)>, maxEntries: int, ttl: real)
    decreases |ops|
  {
    ops == [] ||
    (w.now <= ops[0].1 && LegalRun(Next(w, ops[0].0, ops[0].1, maxEntries, ttl), ops[1..], maxEntries, ttl))
  }

  ghost function Run(w: World, ops: seq<(Op, real)>, maxEntries: int, ttl: real): World
    requires LegalRun(w, ops, maxEntries, ttl)
    decreases |ops|
  {
    if ops == [] then w else Run(Next(w, ops[0].0, ops[0].1, maxEntries, ttl), ops[1..], maxEntries, ttl)
  }

  ghost predicate AnyPut(ops: seq<(Op, real)>) {
    exists i :: 0 <= i < |ops| && ops[i].0.Put?
  }

  lemma {:induction false} RunKeeps(w: World, ops: seq<(Op, real)>, maxEntries: int, ttl: real)
    requires Inv(w) && LegalRun(w, ops, maxEntries, ttl)
    ensures Inv(Run(w, ops, maxEntries, ttl))
    ensures Fits(w.cache, maxEntries) || AnyPut(ops) ==> Fits(Run(w, ops, maxEntries, ttl).cache, maxEntries)
    decreases |ops|
  {
    if ops != [] {
      var next := Next(w, ops[0].0, ops[0].1, maxEntries, ttl);
      StepKeeps(w, ops[0].0, ops[0].1, maxEntries, ttl);
      RunKeeps(next, ops[1..], maxEntries, ttl);
      if AnyPut(ops) && !ops[0].0.Put? {
        var i :| 0 <= i < |ops| && ops[i].0.Put?;
        assert ops[1..][i - 1].0.Put?;
      }
    }
  }

  function Answer(c: Cache, k: Key, now: real, ttl: real): Option<string> {
    if Live(c, k, now, ttl) then Some(c.entries[k].response) else None
  }

  // A loaded cache counts as put entry by entry.
  function Loaded(c: Cache): map<Key, (string, real)> {
    map k | k in c.entries :: (c.entries[k].response, c.entries[k].timestamp)
  }

  // After any run on any loaded cache, however large, get answers with the last value put for the
  // key, put at most ttl ago, or with nothing; the cache is within its bound once anything was put,
  // and before if it was within it when loaded.
  lemma GetRefinesLastPut(c: Cache, start: real, ops: seq<(Op, real)>, maxEntries: int, ttl: real, k: Key, now: real)
    requires c.Valid() && Past(c, start) && LegalRun(World(c, Loaded(c), start), ops, maxEntries, ttl)
    ensures var w := Run(World(c, Loaded(c), start), ops, maxEntries, ttl);
      var answer := Answer(w.cache, k, now, ttl);
      && (Fits(c, maxEntries) || AnyPut(ops) ==> Fits(w.cache, maxEntries))
      && (answer.Some? ==> k in w.last && answer.value == w.last[k].0 && now - w.last[k].1 <= ttl)
  {
    RunKeeps(World(c, Loaded(c), start), ops, maxEntries, ttl);
  }

  // ---------- Runs that never evict ----------

  // The keys put in the run are all in keys.
  ghost predicate PutsWithin(ops: seq<(Op, real)>, keys: set<Key>) {
    forall i :: 0 <= i < |ops| && ops[i].0.Put? ==> ops[i].0.key in keys
  }

  // Only expired keys are missing from the cache.
  ghost predicate Complete(w: World, keys: set<Key>, ttl: real) {
    && (forall k :: k in w.cache.entries ==> k in keys)
    && forall k :: k in w.last && k !in w.cache.entries ==> w.now - w.last[k].1 > ttl
  }

  lemma StepComplete(w: World, op: Op, now: real, maxEntries: int, ttl: real, keys: set<Key>)
    requires Inv(w) && w.now <= now && Complete(w, keys, ttl)
    requires (op.Put? ==> op.key in keys) && |keys| <= maxEntries
    ensures Complete(Next(w, op, now, maxEntries, ttl), keys, ttl)
  {
    match op
    case Put(k, response) =>
      var d := Store(w.cache, k, Entry(response, now, 0));
      StoreValid(w.cache, k, Entry(response, now, 0));
      Pigeonhole(d.order, keys);
      NotEvicted(d, maxEntries);
    case _ =>
  }

  lemma AnswerIsLastPut(w: World, keys: set<Key>, ttl: real, k: Key, now: real)
    requires Inv(w) && Complete(w, keys, ttl) && w.now <= now
    ensures Answer(w.cache, k, now, ttl) == if k in w.last && now - w.last[k].1 <= ttl then Some(w.last[k].0) else None
  {
  }

  // As long as no more keys are put than fit, the cache is the plain map of last puts with a time to
  // live: get answers exactly with a last put that is not too old.
  lemma {:induction false} GetIsLastPut(w: World, ops: seq<(Op, real)>, maxEntries: int, ttl: real, keys: set<Key>,
                                        k: Key, now: real)
    requires Inv(w) && Complete(w, keys, ttl) && LegalRun(w, ops, maxEntries, ttl)
    requires PutsWithin(ops, keys) && |keys| <= maxEntries && Run(w, ops, maxEntries, ttl).now <= now
    ensures var w' := Run(w, ops, maxEntries, ttl);
      Answer(w'.cache, k, now, ttl) == if k in w'.last && now - w'.last[k].1 <= ttl then Some(w'.last[k].0) else None
    decreases |ops|
  {
    hide Next, Inv, Complete, Answer;
    if ops == [] {
      AnswerIsLastPut(w, keys, ttl, k, now);
    } else {
      StepKeeps(w, ops[0].0, ops[0].1, maxEntries, ttl);
      StepComplete(w, ops[0].0, ops[0].1, maxEntries, ttl, keys);
      assert forall i :: 0 <= i < |ops| - 1 ==> ops[1..][i] == ops[i + 1];
      GetIsLastPut(Next(w, ops[0].0, ops[0].1, maxEntries, ttl), ops[1..], maxEntries, ttl, keys, k, now);
    }
  }

  // A cache loaded over its bound, with two entries of the same time: the first of them, put again at
  // that time, is evicted at once, although the bound is one.
  lemma PutIsEvicted(a: Key, b: Key, time: real)
    requires a != b
    ensures var c := Cache([a, b], map[a := Entry("", time, 0), b := Entry("", time, 0)]);
      c.Valid() && Past(c, time) && a !in AfterPut(c, a, "", time, 1).entries
  {
    var c := Cache([a, b], map[a := Entry("", time, 0), b := Entry("", time, 0)]);
    assert [a, b][..1] == [a] && [a][..0] == [];
    assert NoDup([a, b]);
    var d := Store(c, a, Entry("", time, 0));
    assert d.order == [a, b] && d.entries == c.entries && d.order[1..] == [b] && [b][..0] == [];
    SurvivesIff(d, 0, 1);
    var key := TimeOf(d.entries);
    assert WithKey([], key, key(a)) == [];
    assert WithKey([b], key, key(a)) == [b];
  }

  // ---------- The cache object ----------

  class ResponseCache {
    const maxEntries: int
    const ttl: real
    var order: seq<Key>
    var entries: map<Key, Entry>
    // The cache file.
    var disk: Cache

    ghost predicate Valid()
      reads this
    {
      View().Valid()
    }

    function View(): Cache
      reads this`order, this`entries
    {
      Cache(order, entries)
    }

    // Whatever the cache file holds is loaded, however much it is.
    constructor (maxEntries: int, ttl: real, disk: Cache)
      requires disk.Valid()
      ensures Valid() && View() == disk && this.disk == disk && this.maxEntries == maxEntries && this.ttl == ttl
    {
      this.maxEntries, this.ttl, this.order, this.entries, this.disk := maxEntries, ttl, disk.order, disk.entries, disk;
    }

    method DeleteKey(k: Key)
      requires Valid()
      modifies this`order, this`entries
      ensures Valid() && View() == Delete(old(View()), k)
    {
      order, entries := Without(order, k), entries - {k};
    }

    method Get(k: Key, now: real) returns (answer: Option<string>)
      requires Valid()
      modifies this`order, this`entries
      ensures Valid() && View() == AfterGet(old(View()), k, now, ttl)
      ensures answer == Answer(old(View()), k, now, ttl)
    {
      if k !in entries { return None; }
      if now - entries[k].timestamp > ttl {
        DeleteKey(k);
        return None;
      }
      entries := entries[k := entries[k].(hits := entries[k].hits + 1)];
      return Some(entries[k].response);
    }

    method EvictIfNeeded()
      requires Valid()
      modifies this`order, this`entries
      ensures Valid() && View() == Evicted(old(View()), maxEntries)
    {
      ghost var before := View();
      if |order| <= AtLeastZero(maxEntries) {
        NotEvicted(before, maxEntries);
        return;
      }
      var sorted := Sort(order, TimeOf(entries));
      CutGives(before, maxEntries);
      DeleteFirst(sorted, |order| - AtLeastZero(maxEntries));
    }

    method DeleteFirst(sorted: seq<Key>, n: nat)
      requires Valid() && n <= |sorted|
      modifies this`order, this`entries
      ensures Valid() && View() == DeleteAll(old(View()), sorted[..n])
    {
      for i := 0 to n
        invariant Valid() && View() == DeleteAll(old(View()), sorted[..i])
      {
        assert sorted[..i + 1][..i] == sorted[..i];
        DeleteKey(sorted[i]);
      }
    }

    method Put(k: Key, response: string, now: real)
      requires Valid()
      modifies this
      ensures Valid() && View() == AfterPut(old(View()), k, response, now, maxEntries) && disk == View()
    {
      hide Evicted, NoDup;
      StoreValid(View(), k, Entry(response, now, 0));
      if k !in entries { order := order + [k]; }
      entries := entries[k := Entry(response, now, 0)];
      EvictIfNeeded();
      disk := View();
    }

    // Not saved.
    method Invalidate(k: Key)
      requires Valid()
      modifies this`order, this`entries
      ensures Valid() && View() == Delete(old(View()), k)
    {
      DeleteKey(k);
    }

    method Clear()
      modifies this
      ensures Valid() && View() == EMPTY && disk == EMPTY
    {
      order, entries := [], map[];
      disk := EMPTY;
    }
  }
}
