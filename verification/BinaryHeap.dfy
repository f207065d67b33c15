/** The binary heap of queue entries, a list managed by heapq (dxrk/task.py). */
module BinaryHeap {
  // The program keeps tuples (-priority, seq, task): entries compare by rank, then by arrival order.

  datatype TaskId = TaskId(value: string)

  datatype Task = Task(id: TaskId, priority: int)

  datatype Item = Item(rank: int, order: nat, task: Task)

  predicate Before(a: Item, b: Item) {
    a.rank < b.rank || (a.rank == b.rank && a.order < b.order)
  }

  function Parent(i: nat): nat
    requires i > 0
  {
    (i - 1) / 2
  }

  /** No entry comes before its parent. */
  predicate Ordered(h: seq<Item>, i: nat)
    requires 0 < i < |h|
  {
    !Before(h[i], h[Parent(i)])
  }

  predicate IsHeap(h: seq<Item>) {
    HeapFrom(h, 0)
  }

  /** The part of the heap at and below index start, where every parent is at least start. */
  predicate HeapFrom(h: seq<Item>, start: nat) {
    forall i :: 0 < i < |h| && Parent(i) >= start ==> Ordered(h, i)
  }

  lemma {:induction false} RootIsFirst(h: seq<Item>, i: nat)
    requires IsHeap(h) && i < |h|
    ensures !Before(h[i], h[0])
  {
    if i > 0 {
      RootIsFirst(h, Parent(i));
      assert Ordered(h, i);
    }
  }

  function Swap(h: seq<Item>, i: nat, j: nat): seq<Item>
    requires i < |h| && j < |h|
  {
    h[i := h[j]][j := h[i]]
  }

  lemma SwapPermutes(h: seq<Item>, i: nat, j: nat)
    requires i < |h| && j < |h|
    ensures multiset(Swap(h, i, j)) == multiset(h)
  {
  }

  // ----- Moving an entry up -----

  /** The entry at k moves up to start, past every parent it comes before. */
  function Risen(h: seq<Item>, start: nat, k: nat): (r: seq<Item>)
    requires k < |h|
    ensures |r| == |h|
    decreases k
  {
    if k > start && Before(h[k], h[Parent(k)]) then Risen(Swap(h, k, Parent(k)), start, Parent(k)) else h
  }

  lemma {:induction false} RisenConserves(h: seq<Item>, start: nat, k: nat)
    requires k < |h|
    ensures multiset(Risen(h, start, k)) == multiset(h)
    decreases k
  {
    if k > start && Before(h[k], h[Parent(k)]) {
      SwapPermutes(h, k, Parent(k));
      RisenConserves(Swap(h, k, Parent(k)), start, Parent(k));
    }
  }

  /** i is start or below it. */
  ghost predicate Below(start: nat, i: nat)
    decreases i
  {
    i == start || (i > start && Below(start, Parent(i)))
  }

  /** Only the entry at i may come before its parent; its children are in order with that parent. */
  ghost predicate RisingAt(h: seq<Item>, start: nat, i: nat) {
    && i < |h| && Below(start, i)
    && (forall j :: 0 < j < |h| && Parent(j) >= start && j != i ==> Ordered(h, j))
    && (forall j :: 0 < j < |h| && Parent(j) == i && i > start ==> !Before(h[j], h[Parent(i)]))
  }

  lemma {:induction false} BelowIsLater(start: nat, i: nat)
    requires Below(start, i)
    ensures i >= start
    decreases i
  {
  }

  lemma RiseOnce(h: seq<Item>, start: nat, i: nat)
    requires RisingAt(h, start, i) && i > start && Before(h[i], h[Parent(i)])
    ensures RisingAt(Swap(h, i, Parent(i)), start, Parent(i))
  {
    var p := Parent(i);
    var s := Swap(h, i, p);
    BelowIsLater(start, p);
    forall j | 0 < j < |s| && Parent(j) >= start && j != p
      ensures Ordered(s, j)
    {
      if j != i {
        assert Ordered(h, j);
      }
    }
    forall j | 0 < j < |s| && Parent(j) == p && p > start
      ensures !Before(s[j], s[Parent(p)])
    {
      BelowIsLater(start, Parent(p));
      assert Ordered(h, p);
      if j != i {
        assert Ordered(h, j);
      }
    }
  }

  lemma RiseEnds(h: seq<Item>, start: nat, i: nat)
    requires RisingAt(h, start, i) && (i > start ==> !Before(h[i], h[Parent(i)]))
    ensures HeapFrom(h, start)
  {
    forall j | 0 < j < |h| && Parent(j) >= start
      ensures Ordered(h, j)
    {
      BelowIsLater(start, i);
    }
  }

  lemma {:induction false} RisenIsHeap(h: seq<Item>, start: nat, k: nat)
    requires RisingAt(h, start, k)
    ensures HeapFrom(Risen(h, start, k), start)
    decreases k
  {
    if k > start && Before(h[k], h[Parent(k)]) {
      RiseOnce(h, start, k);
      RisenIsHeap(Swap(h, k, Parent(k)), start, Parent(k));
    } else {
      RiseEnds(h, start, k);
    }
  }

  method Rise(h: seq<Item>, start: nat, k: nat) returns (r: seq<Item>)
    requires k < |h|
    ensures r == Risen(h, start, k)
  {
    r := h;
    var i: nat := k;
    while i > start && Before(r[i], r[Parent(i)])
      invariant i < |r| && Risen(r, start, i) == Risen(h, start, k)
    {
      r := Swap(r, i, Parent(i));
      i := Parent(i);
    }
  }

  // ----- Moving an entry down -----

  /** The child that takes a vacant place: the right one unless the left one comes before it. */
  function FirstChild(h: seq<Item>, i: nat): (c: nat)
    requires 2 * i + 1 < |h|
    ensures 0 < c < |h| && Parent(c) == i
    ensures forall j :: 0 < j < |h| && Parent(j) == i ==> !Before(h[j], h[c])
  {
    if 2 * i + 2 < |h| && !Before(h[2 * i + 1], h[2 * i + 2]) then 2 * i + 2 else 2 * i + 1
  }

  /** The entry at k goes down to a leaf, past the first child each time, whatever it is worth. */
  function ToLeaf(h: seq<Item>, k: nat): (r: (seq<Item>, nat))
    requires k < |h|
    ensures |r.0| == |h| && r.1 < |h|
    decreases |h| - k
  {
    if 2 * k + 1 < |h| then ToLeaf(Swap(h, k, FirstChild(h, k)), FirstChild(h, k)) else (h, k)
  }

  lemma {:induction false} ToLeafConserves(h: seq<Item>, k: nat)
    requires k < |h|
    ensures multiset(ToLeaf(h, k).0) == multiset(h)
    decreases |h| - k
  {
    if 2 * k + 1 < |h| {
      SwapPermutes(h, k, FirstChild(h, k));
      ToLeafConserves(Swap(h, k, FirstChild(h, k)), FirstChild(h, k));
    }
  }

  /** heapq's way: down to a leaf, and from there up again to the right place. */
  function Sunk(h: seq<Item>, start: nat): (r: seq<Item>)
    requires start < |h|
    ensures |r| == |h|
  {
    Risen(ToLeaf(h, start).0, start, ToLeaf(h, start).1)
  }

  lemma SunkConserves(h: seq<Item>, start: nat)
    requires start < |h|
    ensures multiset(Sunk(h, start)) == multiset(h)
  {
    ToLeafConserves(h, start);
    RisenConserves(ToLeaf(h, start).0, start, ToLeaf(h, start).1);
  }

  /** Only the entry at i may be misplaced; its children are in order with its parent. */
  ghost predicate SinkingAt(h: seq<Item>, start: nat, i: nat) {
    && i < |h| && Below(start, i)
    && (forall j :: 0 < j < |h| && Parent(j) >= start && j != i && Parent(j) != i ==> Ordered(h, j))
    && (forall j :: 0 < j < |h| && Parent(j) == i && i > start ==> !Before(h[j], h[Parent(i)]))
  }

  lemma SinkOnce(h: seq<Item>, start: nat, i: nat)
    requires SinkingAt(h, start, i) && 2 * i + 1 < |h|
    ensures SinkingAt(Swap(h, i, FirstChild(h, i)), start, FirstChild(h, i))
  {
    var c := FirstChild(h, i);
    var s := Swap(h, i, c);
    BelowIsLater(start, i);
    forall j | 0 < j < |s| && Parent(j) >= start && j != c && Parent(j) != c
      ensures Ordered(s, j)
    {
      if j != i && Parent(j) != i {
        assert Ordered(h, j);
      }
    }
    forall j | 0 < j < |s| && Parent(j) == c
      ensures !Before(s[j], s[Parent(c)])
    {
      assert Ordered(h, j);
    }
  }

  lemma {:induction false} LeafIsRising(h: seq<Item>, start: nat, k: nat)
    requires SinkingAt(h, start, k)
    ensures RisingAt(ToLeaf(h, k).0, start, ToLeaf(h, k).1)
    decreases |h| - k
  {
    if 2 * k + 1 < |h| {
      SinkOnce(h, start, k);
      LeafIsRising(Swap(h, k, FirstChild(h, k)), start, FirstChild(h, k));
    }
  }

  /** Restores the heap below start when only the entry at start is misplaced. */
  lemma SunkIsHeap(h: seq<Item>, start: nat)
    requires start < |h| && HeapFrom(h, start + 1)
    ensures HeapFrom(Sunk(h, start), start)
  {
    assert forall j :: 0 < j < |h| && Parent(j) >= start && Parent(j) != start ==> Parent(j) >= start + 1;
    LeafIsRising(h, start, start);
    RisenIsHeap(ToLeaf(h, start).0, start, ToLeaf(h, start).1);
  }

  method Sink(h: seq<Item>, start: nat) returns (r: seq<Item>)
    requires start < |h|
    ensures r == Sunk(h, start)
  {
    r := h;
    var i := start;
    while 2 * i + 1 < |r|
      invariant i < |r| == |h| && ToLeaf(r, i) == ToLeaf(h, start)
      decreases |r| - i
    {
      var c := FirstChild(r, i);
      r := Swap(r, i, c);
      i := c;
    }
    r := Rise(r, start, i);
  }

  // ----- heappush, heappop, heapify -----

  function Pushed(h: seq<Item>, x: Item): seq<Item> {
    Risen(h + [x], 0, |h|)
  }

  lemma PushedConserves(h: seq<Item>, x: Item)
    ensures multiset(Pushed(h, x)) == multiset(h) + multiset{x}
  {
    RisenConserves(h + [x], 0, |h|);
  }

  lemma {:induction false} AllBelowRoot(i: nat)
    ensures Below(0, i)
  {
    if i > 0 {
      AllBelowRoot(Parent(i));
    }
  }

  lemma PushedIsHeap(h: seq<Item>, x: Item)
    requires IsHeap(h)
    ensures IsHeap(Pushed(h, x))
  {
    AllBelowRoot(|h|);
    forall j | 0 < j < |h + [x]| && j != |h|
      ensures Ordered(h + [x], j)
    {
      assert Ordered(h, j);
    }
    RisenIsHeap(h + [x], 0, |h|);
  }

  /** Every heap is what pushing its entries one after the other builds. */
  lemma BuiltByPushes(h: seq<Item>, k: nat)
    requires IsHeap(h) && k < |h|
    ensures Pushed(h[..k], h[k]) == h[..k + 1]
  {
    assert h[..k] + [h[k]] == h[..k + 1];
    assert k > 0 ==> Ordered(h, k) && h[..k + 1][Parent(k)] == h[Parent(k)];
  }

  method HeapPush(h: seq<Item>, x: Item) returns (r: seq<Item>)
    ensures r == Pushed(h, x)
  {
    r := Rise(h + [x], 0, |h|);
  }

  function Popped(h: seq<Item>): seq<Item>
    requires h != []
  {
    if |h| == 1 then [] else Sunk(h[..|h| - 1][0 := h[|h| - 1]], 0)
  }

  lemma PoppedConserves(h: seq<Item>)
    requires h != []
    ensures multiset(Popped(h)) + multiset{h[0]} == multiset(h)
  {
    var n := |h| - 1;
    if n == 0 {
      assert h == [h[0]];
    } else {
      assert h == [h[0]] + h[1..n] + [h[n]];
      assert h[..n][0 := h[n]] == [h[n]] + h[1..n];
      SunkConserves(h[..n][0 := h[n]], 0);
    }
  }

  lemma PoppedIsHeap(h: seq<Item>)
    requires h != [] && IsHeap(h)
    ensures IsHeap(Popped(h))
  {
    var n := |h| - 1;
    if n > 0 {
      var r := h[..n][0 := h[n]];
      forall j | 0 < j < |r| && Parent(j) >= 1
        ensures Ordered(r, j)
      {
        assert Ordered(h, j);
      }
      SunkIsHeap(r, 0);
    }
  }

  method HeapPop(h: seq<Item>) returns (r: seq<Item>)
    requires h != []
    ensures r == Popped(h)
  {
    var last := h[|h| - 1];
    if |h| == 1 {
      return [];
    }
    r := Sink(h[..|h| - 1][0 := last], 0);
  }

  /** Sinks the entries before i, last first. */
  function HeapifiedFrom(h: seq<Item>, i: nat): seq<Item>
    requires i <= |h|
    decreases i
  {
    if i == 0 then h else HeapifiedFrom(Sunk(h, i - 1), i - 1)
  }

  function Heapified(h: seq<Item>): seq<Item> {
    HeapifiedFrom(h, |h| / 2)
  }

  lemma {:induction false} HeapifiedFromIsHeap(h: seq<Item>, i: nat)
    requires i <= |h| && HeapFrom(h, i)
    ensures IsHeap(HeapifiedFrom(h, i)) && multiset(HeapifiedFrom(h, i)) == multiset(h)
    decreases i
  {
    if i > 0 {
      SunkIsHeap(h, i - 1);
      SunkConserves(h, i - 1);
      HeapifiedFromIsHeap(Sunk(h, i - 1), i - 1);
    }
  }

  /** heapq.heapify makes a heap of any list, with the same entries. */
  lemma HeapifiedIsHeap(h: seq<Item>)
    ensures IsHeap(Heapified(h)) && multiset(Heapified(h)) == multiset(h)
  {
    HeapifiedFromIsHeap(h, |h| / 2);
  }

  method Heapify(h: seq<Item>) returns (r: seq<Item>)
    ensures r == Heapified(h)
  {
    r := SinkAll(h, |h| / 2);
  }

  method SinkAll(h: seq<Item>, n: nat) returns (r: seq<Item>)
    requires n <= |h|
    ensures r == HeapifiedFrom(h, n)
  {
    r := h;
    var i: nat := n;
    while i > 0
      invariant i <= |r| && HeapifiedFrom(r, i) == HeapifiedFrom(h, n)
    {
      HeapifiedNext(r, i);
      i := i - 1;
      r := Sink(r, i);
    }
  }

  lemma HeapifiedNext(h: seq<Item>, i: nat)
    requires 0 < i <= |h|
    ensures HeapifiedFrom(h, i) == HeapifiedFrom(Sunk(h, i - 1), i - 1)
  {
  }

  // ----- Filtering without restoring the heap -----

  function Without(h: seq<Item>, id: TaskId): seq<Item> {
    if h == [] then []
    else if h[0].task.id == id then Without(h[1..], id)
    else [h[0]] + Without(h[1..], id)
  }

  lemma {:induction false} WithoutMembers(h: seq<Item>, id: TaskId)
    ensures forall x :: x in Without(h, id) ==> x in h && x.task.id != id
  {
    if h != [] {
      WithoutMembers(h[1..], id);
    }
  }

  /** The filter keeps every other entry as often as it occurred. */
  lemma {:induction false} WithoutMultiplicity(h: seq<Item>, id: TaskId, x: Item)
    ensures multiset(Without(h, id))[x] == if x.task.id == id then 0 else multiset(h)[x]
  {
    if h != [] {
      WithoutMultiplicity(h[1..], id, x);
      assert h == [h[0]] + h[1..];
    }
  }

  ghost predicate FirstOf(x: Item, h: seq<Item>) {
    forall y :: y in h ==> !Before(y, x)
  }

  /** If the entry at the root survives the filter, the next pop is still right. */
  lemma FilterKeepsRoot(h: seq<Item>, id: TaskId)
    requires IsHeap(h) && h != [] && h[0].task.id != id
    ensures Without(h, id) != [] && Without(h, id)[0] == h[0] && FirstOf(h[0], Without(h, id))
  {
    WithoutMembers(h, id);
    forall y | y in Without(h, id)
      ensures !Before(y, h[0])
    {
      var i :| 0 <= i < |h| && h[i] == y;
      RootIsFirst(h, i);
    }
  }

  lemma {:induction false} WithoutAbsent(h: seq<Item>, id: TaskId)
    requires forall i :: 0 <= i < |h| ==> h[i].task.id != id
    ensures Without(h, id) == h
  {
    if h != [] {
      WithoutAbsent(h[1..], id);
    }
  }

  lemma {:induction false} SecondOrThird(h: seq<Item>, i: nat)
    requires IsHeap(h) && 0 < i < |h|
    ensures !Before(h[i], h[1]) || (|h| > 2 && !Before(h[i], h[2]))
  {
    if i > 2 {
      SecondOrThird(h, Parent(i));
      assert Ordered(h, i);
    }
  }

  /**
   Exactly when filtering out the root leaves the next pop right: the entry that
   slides into first place must not lose to its former sibling.
   */
  lemma FilterRootExact(h: seq<Item>, id: TaskId)
    requires IsHeap(h) && |h| > 1 && h[0].task.id == id
    requires forall i :: 0 < i < |h| ==> h[i].task.id != id
    ensures Without(h, id) == h[1..]
    ensures FirstOf(h[1], h[1..]) <==> |h| == 2 || !Before(h[2], h[1])
  {
    WithoutAbsent(h[1..], id);
    if |h| > 2 {
      assert h[2] == h[1..][1];
    }
    if |h| == 2 || !Before(h[2], h[1]) {
      forall y | y in h[1..]
        ensures !Before(y, h[1])
      {
        var i :| 0 <= i < |h[1..]| && h[1..][i] == y;
        SecondOrThird(h, i + 1);
      }
    }
  }

  // ----- Exactly when the filter leaves a heap -----

  predicate Kept(h: seq<Item>, id: TaskId, i: nat) {
    i < |h| && h[i].task.id != id
  }

  /** Where a kept entry stands after the filter: it slides past the dropped ones before it. */
  function Place(h: seq<Item>, id: TaskId, i: nat): nat
    requires i <= |h|
  {
    |Without(h[..i], id)|
  }

  lemma {:induction false} WithoutAppend(a: seq<Item>, b: seq<Item>, id: TaskId)
    ensures Without(a + b, id) == Without(a, id) + Without(b, id)
  {
    if a == [] {
      assert a + b == b;
    } else {
      WithoutAppend(a[1..], b, id);
      assert (a + b)[1..] == a[1..] + b;
      var x := if a[0].task.id == id then [] else [a[0]];
      assert x + (Without(a[1..], id) + Without(b, id)) == (x + Without(a[1..], id)) + Without(b, id);
    }
  }

  lemma KeptAt(h: seq<Item>, id: TaskId, i: nat)
    requires Kept(h, id, i)
    ensures Place(h, id, i) < |Without(h, id)| && Without(h, id)[Place(h, id, i)] == h[i]
  {
    WithoutAppend(h[..i], h[i..], id);
    assert h == h[..i] + h[i..];
  }

  lemma {:induction false} CameFrom(h: seq<Item>, id: TaskId, k: nat) returns (i: nat)
    requires k < |Without(h, id)|
    ensures Kept(h, id, i) && Place(h, id, i) == k
  {
    if h[0].task.id != id && k == 0 {
      i := 0;
    } else {
      var m := CameFrom(h[1..], id, if h[0].task.id == id then k else k - 1);
      i := m + 1;
      assert h[..i] == [h[0]] + h[1..][..m];
      assert h[..i][1..] == h[1..][..m];
    }
  }

  /** No kept entry comes before the one that slides into its parent's place. */
  ghost predicate SlidesInOrder(h: seq<Item>, id: TaskId) {
    forall i: nat, j: nat {:trigger Place(h, id, i), Place(h, id, j)} ::
      Kept(h, id, i) && Kept(h, id, j) && Place(h, id, i) > 0 && Place(h, id, j) == Parent(Place(h, id, i))
      ==> !Before(h[i], h[j])
  }

  /** Exactly when filtering out an id leaves a heap, for every list and every id, repeated or not. */
  lemma FilterIsHeapIff(h: seq<Item>, id: TaskId)
    ensures IsHeap(Without(h, id)) <==> SlidesInOrder(h, id)
  {
    var r := Without(h, id);
    if SlidesInOrder(h, id) {
      forall k | 0 < k < |r|
        ensures Ordered(r, k)
      {
        var i := CameFrom(h, id, k);
        var j := CameFrom(h, id, Parent(k));
        KeptAt(h, id, i);
        KeptAt(h, id, j);
      }
    }
    if IsHeap(r) {
      forall i: nat, j: nat | Kept(h, id, i) && Kept(h, id, j)
                              && Place(h, id, i) > 0 && Place(h, id, j) == Parent(Place(h, id, i))
        ensures !Before(h[i], h[j])
      {
        KeptAt(h, id, i);
        KeptAt(h, id, j);
        assert Ordered(r, Place(h, id, i));
      }
    }
  }
}
