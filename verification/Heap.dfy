// The binary heap that core/queue_manager.py keeps in a list, with the two sift loops of the
// standard heapq module: a hole is moved along the tree and the new item is dropped into it.

module Heap {
  // Queue entries compare by priority, then creation time, then ticket.
  datatype Key = Key(priority: int, createdAt: real, ticket: nat)

  datatype Item<+T> = Item(key: Key, value: T)

  predicate Less(a: Key, b: Key) {
    || a.priority < b.priority
    || (a.priority == b.priority && (a.createdAt < b.createdAt ||
                                     (a.createdAt == b.createdAt && a.ticket < b.ticket)))
  }

  predicate Leq(a: Key, b: Key) {
    !Less(b, a)
  }

  lemma LeqTransitive(a: Key, b: Key, c: Key)
    requires Leq(a, b) && Leq(b, c)
    ensures Leq(a, c)
  {
  }

  function Parent(i: int): int
    requires i > 0
  {
    (i - 1) / 2
  }

  // The item at i is not before its parent.
  ghost predicate Ordered<T>(h: seq<Item<T>>, i: int)
    requires 0 <= i < |h|
  {
    i > 0 ==> Leq(h[Parent(i)].key, h[i].key)
  }

  ghost predicate IsHeap<T>(h: seq<Item<T>>) {
    forall i :: 0 <= i < |h| ==> Ordered(h, i)
  }

  lemma {:induction false} RootIsLeast<T>(h: seq<Item<T>>, i: nat)
    requires IsHeap(h) && i < |h|
    ensures Leq(h[0].key, h[i].key)
  {
    if i > 0 {
      RootIsLeast(h, Parent(i));
      assert Ordered(h, i);
      LeqTransitive(h[0].key, h[Parent(i)].key, h[i].key);
    }
  }

  lemma SwapKeepsItems<T>(s: seq<T>, i: nat, j: nat)
    requires i < |s| && j < |s|
    ensures multiset(s[i := s[j]][j := s[i]]) == multiset(s)
  {
    var t := s[i := s[j]];
    assert multiset(t) == multiset(s) - multiset{s[i]} + multiset{s[j]};
    assert multiset(t[j := s[i]]) == multiset(t) - multiset{t[j]} + multiset{s[i]};
  }

  // ---------- Towards the root ----------

  // A heap except that the item at pos may belong further up.
  ghost predicate MayRise<T>(h: seq<Item<T>>, pos: int) {
    && 0 <= pos < |h|
    && (forall i :: 0 <= i < |h| && i != pos ==> Ordered(h, i))
    && (pos > 0 ==> forall i :: 0 < i < |h| && Parent(i) == pos ==> Leq(h[Parent(pos)].key, h[i].key))
  }

  lemma RiseKeeps<T>(h: seq<Item<T>>, pos: int)
    requires MayRise(h, pos) && pos > 0 && Less(h[pos].key, h[Parent(pos)].key)
    ensures MayRise(h[pos := h[Parent(pos)]][Parent(pos) := h[pos]], Parent(pos))
  {
    var up := Parent(pos);
    var g := h[pos := h[up]][up := h[pos]];
    forall i | 0 <= i < |g| && i != up ensures Ordered(g, i) {
      assert i != pos ==> Ordered(h, i);
      assert Ordered(h, up);
    }
    if up > 0 {
      forall i | 0 < i < |g| && Parent(i) == up ensures Leq(g[Parent(up)].key, g[i].key) {
        assert Ordered(h, up);
        if i != pos { assert Ordered(h, i); }
      }
    }
  }

  // heapq._siftdown: the item at start rises past every parent that is after it.
  method SiftDown<T>(heap: seq<Item<T>>, start: nat) returns (h: seq<Item<T>>)
    requires MayRise(heap, start)
    ensures IsHeap(h) && |h| == |heap| && multiset(h) == multiset(heap)
  {
    var newItem, pos := heap[start], start;
    h := heap;
    assert h[pos := newItem] == h;
    while pos > 0
      invariant 0 <= pos < |h| == |heap|
      invariant MayRise(h[pos := newItem], pos) && multiset(h[pos := newItem]) == multiset(heap)
    {
      var up := Parent(pos);
      ghost var g := h[pos := newItem];
      if !Less(newItem.key, h[up].key) { break; }
      RiseKeeps(g, pos);
      MoveHole(h, pos, up, newItem);
      h := h[pos := h[up]];
      assert h[up := newItem] == g[pos := g[up]][up := g[pos]];
      pos := up;
    }
    h := h[pos := newItem];
    assert Ordered(h, pos);
  }

  // Moving the hole from one place to another keeps the items, counting the one in hand.
  lemma MoveHole<T>(h: seq<Item<T>>, pos: nat, to: nat, item: Item<T>)
    requires pos < |h| && to < |h| && pos != to
    ensures multiset(h[pos := h[to]][to := item]) == multiset(h[pos := item])
  {
    var g := h[pos := item];
    SwapKeepsItems(g, pos, to);
    assert h[pos := h[to]][to := item] == g[pos := g[to]][to := g[pos]];
  }

  // ---------- Towards the leaves ----------

  // A heap except for a hole at pos, whose own content does not matter.
  ghost predicate HasHole<T>(h: seq<Item<T>>, pos: int) {
    && 0 <= pos < |h|
    && (forall i :: 0 < i < |h| && i != pos && Parent(i) != pos ==> Ordered(h, i))
    && (pos > 0 ==> forall i :: 0 < i < |h| && Parent(i) == pos ==> Leq(h[Parent(pos)].key, h[i].key))
  }

  lemma SinkKeeps<T>(h: seq<Item<T>>, pos: int, child: int)
    requires HasHole(h, pos) && 0 < child < |h| && Parent(child) == pos
    requires forall i :: 0 < i < |h| && Parent(i) == pos ==> Leq(h[child].key, h[i].key)
    ensures HasHole(h[pos := h[child]], child)
  {
    var g := h[pos := h[child]];
    forall i | 0 < i < |g| && i != child && Parent(i) != child ensures Ordered(g, i) {
      if i != pos && Parent(i) != pos { assert Ordered(h, i); }
    }
    forall i | 0 < i < |g| && Parent(i) == child ensures Leq(g[pos].key, g[i].key) {
      assert Ordered(h, i);
    }
  }

  method LesserChild<T>(h: seq<Item<T>>, pos: nat) returns (child: nat)
    requires 2 * pos + 1 < |h|
    ensures pos < child < |h| && Parent(child) == pos
    ensures forall i :: 0 < i < |h| && Parent(i) == pos ==> Leq(h[child].key, h[i].key)
  {
    child := 2 * pos + 1;
    var right := child + 1;
    if right < |h| && !Less(h[child].key, h[right].key) { child := right; }
    forall i | 0 < i < |h| && Parent(i) == pos ensures Leq(h[child].key, h[i].key) {
      assert i == 2 * pos + 1 || i == 2 * pos + 2;
    }
  }

  // heapq._siftup: the hole left by item sinks to a leaf along the lesser children, then item rises.
  method SiftUp<T>(heap: seq<Item<T>>, item: Item<T>) returns (h: seq<Item<T>>)
    requires |heap| > 0 && HasHole(heap, 0)
    ensures IsHeap(h) && |h| == |heap| && multiset(h) == multiset(heap[0 := item])
  {
    var pos := 0;
    h := heap;
    while 2 * pos + 1 < |h|
      invariant 0 <= pos < |h| == |heap|
      invariant HasHole(h, pos) && multiset(h[pos := item]) == multiset(heap[0 := item])
      decreases |h| - pos
    {
      var child := LesserChild(h, pos);
      SinkKeeps(h, pos, child);
      MoveHole(h, pos, child, item);
      h := h[pos := h[child]];
      pos := child;
    }
    HoleAtLeaf(h, pos, item);
    h := SiftDown(h[pos := item], pos);
  }

  lemma HoleAtLeaf<T>(h: seq<Item<T>>, pos: int, item: Item<T>)
    requires HasHole(h, pos) && 2 * pos + 1 >= |h|
    ensures MayRise(h[pos := item], pos)
  {
    var g := h[pos := item];
    forall i | 0 < i < |g| && i != pos ensures Ordered(g, i) {
      assert Parent(i) != pos;
      assert Ordered(h, i);
    }
  }

  // ---------- heapq.heappush and heapq.heappop ----------

  method Push<T>(heap: seq<Item<T>>, item: Item<T>) returns (h: seq<Item<T>>)
    requires IsHeap(heap)
    ensures IsHeap(h) && multiset(h) == multiset(heap) + multiset{item}
  {
    h := heap + [item];
    forall i | 0 <= i < |heap| ensures Ordered(h, i) { assert Ordered(heap, i); }
    h := SiftDown(h, |heap|);
  }

  method Pop<T>(heap: seq<Item<T>>) returns (least: Item<T>, h: seq<Item<T>>)
    requires IsHeap(heap) && heap != []
    ensures IsHeap(h) && multiset(heap) == multiset(h) + multiset{least}
    ensures least == heap[0] && forall i :: 0 <= i < |heap| ==> Leq(least.key, heap[i].key)
  {
    var last := heap[|heap| - 1];
    h := heap[..|heap| - 1];
    least := heap[0];
    forall i | 0 <= i < |heap| ensures Leq(least.key, heap[i].key) { RootIsLeast(heap, i); }
    assert heap == h + [last];
    if h != [] {
      forall i | 0 < i < |h| ensures Ordered(h, i) { assert Ordered(heap, i); }
      assert multiset(h[0 := last]) == multiset(h) - multiset{least} + multiset{last};
      h := SiftUp(h, last);
    }
  }
}
