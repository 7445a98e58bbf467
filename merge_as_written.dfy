/**
 * `merge_cashbacks` exactly as the ledger writes it: an index loop over the
 * live list that re-targets one entry and then calls `heapq.heapify` on the
 * whole list before moving to the next index. Python's `heapify` and its two
 * sift routines are modelled step by step, including the `TypeError` raised
 * when a tuple is compared with a list (completed cashbacks are appended as
 * lists; re-targeted ones are written back as tuples).
 */
module MergeAsWritten {
  import opened Wrappers
  import opened Strings
  import opened Cashbacks

  /** One slot of a cashback list: stored as a tuple or as a list. */
  datatype Slot = Tuple(c: Cashback) | List(c: Cashback)

  /**
   * Python's `x < y` on two slots: the sequence order within one kind,
   * nothing (a `TypeError`) across kinds.
   */
  function Less(x: Slot, y: Slot): (r: Option<bool>)
  {
    if x.Tuple? == y.Tuple? then Some(Before(x.c, y.c)) else None
  }

  /** `pos` lies in the subtree rooted at `start` of the implicit binary heap. */
  predicate Descends(pos: nat, start: nat)
    decreases pos
  {
    pos == start || (pos > start && Descends((pos - 1) / 2, start))
  }

  /**
   * `heapq._siftdown(heap, start, pos)` with `item` as `newitem`: parents
   * greater than `item` move down into the hole at `pos`, then `item` fills it.
   */
  function SiftDown(h: seq<Slot>, start: nat, pos: nat, item: Slot): (r: Option<seq<Slot>>)
    requires pos < |h| && Descends(pos, start)
    ensures r.Some? ==> |r.value| == |h|
    decreases pos
  {
    if pos > start then
      var parent := (pos - 1) / 2;
      match Less(item, h[parent])
      case None => None
      case Some(true) => SiftDown(h[pos := h[parent]], start, parent, item)
      case Some(false) => Some(h[pos := item])
    else
      Some(h[pos := item])
  }

  /**
   * The first half of `heapq._siftup`: the smaller child (the right one
   * unless the left is strictly smaller) moves up into the hole at `pos`
   * until the hole reaches a leaf, whose position is returned.
   */
  function Descend(h: seq<Slot>, start: nat, pos: nat): (r: Option<(seq<Slot>, nat)>)
    requires pos < |h| && Descends(pos, start)
    ensures r.Some? ==> |r.value.0| == |h| && r.value.1 < |h| && Descends(r.value.1, start)
    decreases |h| - pos
  {
    var left := 2 * pos + 1;
    if left >= |h| then Some((h, pos))
    else
      var chosen :=
        if left + 1 < |h| then
          match Less(h[left], h[left + 1])
          case None => None
          case Some(leftSmaller) => Some(if leftSmaller then left else left + 1)
        else Some(left);
      match chosen
      case None => None
      case Some(child) =>
        assert (child - 1) / 2 == pos;
        Descend(h[pos := h[child]], start, child)
  }

  /** `heapq._siftup(heap, pos)`: descend to a leaf, then sift the old `heap[pos]` back up. */
  function SiftUp(h: seq<Slot>, pos: nat): (r: Option<seq<Slot>>)
    requires pos < |h|
    ensures r.Some? ==> |r.value| == |h|
  {
    match Descend(h, pos, pos)
    case None => None
    case Some((h', leaf)) => SiftDown(h', pos, leaf, h[pos])
  }

  /** `for i in reversed(range(n)): _siftup(heap, i)`. */
  function HeapifyBelow(h: seq<Slot>, n: nat): (r: Option<seq<Slot>>)
    requires n <= |h|
    ensures r.Some? ==> |r.value| == |h|
    decreases n
  {
    if n == 0 then Some(h)
    else
      match SiftUp(h, n - 1)
      case None => None
      case Some(h') => HeapifyBelow(h', n - 1)
  }

  /** `heapq.heapify(heap)`: sift every inner node, last one first; nothing on a `TypeError`. */
  function Heapify(h: seq<Slot>): (r: Option<seq<Slot>>)
    ensures r.Some? ==> |r.value| == |h|
  {
    HeapifyBelow(h, |h| / 2)
  }

  /**
   * The `enumerate` loop of `merge_cashbacks` from index `i` on: an entry of
   * `b` at the current index becomes a tuple owned by `a`, and the whole list
   * is heapified at once, so later indices see the reordered list. Nothing
   * when a comparison raises.
   */
  function MergeLoop(s: seq<Slot>, a: string, b: string, i: nat): (r: Option<seq<Slot>>)
    requires i <= |s|
    ensures r.Some? ==> |r.value| == |s|
    decreases |s| - i
  {
    if i == |s| then Some(s)
    else if s[i].c.owner == b then
      match Heapify(s[i := Tuple(s[i].c.(owner := a))])
      case None => None
      case Some(s') => MergeLoop(s', a, b, i + 1)
    else MergeLoop(s, a, b, i + 1)
  }

  /** The loop of `merge_cashbacks` as the ledger runs it, on one list. */
  method MergeList(s: seq<Slot>, a: string, b: string) returns (r: Option<seq<Slot>>)
    ensures r == MergeLoop(s, a, b, 0)
    ensures r.Some? ==> |r.value| == |s|
  {
    var list := s;
    var i := 0;
    while i < |list|
      invariant |list| == |s| && i <= |list|
      invariant MergeLoop(list, a, b, i) == MergeLoop(s, a, b, 0)
    {
      if list[i].c.owner == b {
        var heap := Heapify(list[i := Tuple(list[i].c.(owner := a))]);
        if heap.None? {
          return None;
        }
        list := heap.value;
      }
      i := i + 1;
    }
    return Some(list);
  }

  /** Two pending cashbacks of `b`, due together, for payments 1 and 2. */
  const First: Cashback := Cashback(86400000, "b", "payment1", 2)
  const Second: Cashback := Cashback(86400000, "b", "payment2", 4)

  /**
   * Merging `b` into `z` when `b` holds both entries of the pending heap:
   * re-targeting index 0 and heapifying moves the second entry of `b` to
   * index 0, which the loop has already passed, so it stays owned by `b`.
   */
  lemma HeapifyInLoopKeepsOwner()
    ensures MergeLoop([Tuple(First), Tuple(Second)], "z", "b", 0)
         == Some([Tuple(Second), Tuple(First.(owner := "z"))])
    ensures Second.owner == "b"
  {
    var z := First.(owner := "z");
    var h := [Tuple(z), Tuple(Second)];
    var moved := [Tuple(Second), Tuple(Second)];
    assert h[0 := h[1]] == moved;
    assert Descend(moved, 0, 1) == Some((moved, 1));
    assert Descend(h, 0, 0) == Some((moved, 1));
    assert StrLess("b", "z");
    assert Less(Tuple(z), moved[0]) == Some(false);
    assert moved[1 := Tuple(z)] == [Tuple(Second), Tuple(z)];
    assert SiftDown(moved, 0, 1, Tuple(z)) == Some([Tuple(Second), Tuple(z)]);
    assert SiftUp(h, 0) == Some([Tuple(Second), Tuple(z)]);
    assert Heapify(h) == Some([Tuple(Second), Tuple(z)]);
    assert MergeLoop([Tuple(Second), Tuple(z)], "z", "b", 1) == Some([Tuple(Second), Tuple(z)]);
    assert [Tuple(First), Tuple(Second)][0 := Tuple(First.(owner := "z"))] == h;
  }

  /** The re-targeting the ledger intends leaves `b` owning nothing on the same input. */
  lemma RetargetClearsOwner()
    ensures Retarget([First, Second], "z", "b") == [First.(owner := "z"), Second.(owner := "z")]
  {
    RetargetAt([First, Second], "z", "b");
  }

  /**
   * Merging `b` into `z` over two completed cashbacks, both stored as lists:
   * the re-targeted entry is written as a tuple, and heapify compares it
   * with the remaining list, which raises.
   */
  lemma MixedKindsRaise()
    ensures MergeLoop([List(First), List(Second.(owner := "c"))], "z", "b", 0) == None
  {
    var other := List(Second.(owner := "c"));
    var h := [Tuple(First.(owner := "z")), other];
    assert h[0 := h[1]] == [other, other];
    assert Descend([other, other], 0, 1) == Some(([other, other], 1));
    assert Descend(h, 0, 0) == Some(([other, other], 1));
    assert SiftDown([other, other], 0, 1, h[0]) == None;
    assert SiftUp(h, 0) == None;
    assert Heapify(h) == None;
    assert [List(First), other][0 := Tuple(First.(owner := "z"))] == h;
  }
}
