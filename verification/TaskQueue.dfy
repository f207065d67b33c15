/** The task queue (dxrk/task.py, Queue), proved to hand out tasks as the plain arrival list does. */
module TaskQueue {
  // A heap list, a sequence counter and a registry. A removal leaves a list that need not be a
  // heap, so the methods keep two levels of validity apart: the shape, which always holds, and
  // the heap order.

  import opened Wrappers
  import opened BinaryHeap
  import opened ArrivalList

  // ----- What each operation does to the list -----

  datatype Op = Push(task: Task) | Pop | TryPop | Remove(id: TaskId) | Close

  /** The fields of the queue; of the registry only the ids matter here. */
  datatype Raw = Raw(items: seq<Item>, nextOrder: nat, known: set<TaskId>, closed: bool)

  const EMPTY := Raw([], 0, {}, false)

  function TakeRoot(s: Raw): (Raw, Option<Task>) {
    if s.items == [] then (s, None) else (s.(items := Popped(s.items)), Some(s.items[0].task))
  }

  /** The list after a removal: filtered, and made a heap again only in the repaired form. */
  function Filtered(repaired: bool, items: seq<Item>, id: TaskId): seq<Item> {
    if repaired then Heapified(Without(items, id)) else Without(items, id)
  }

  /** One operation with the task it hands out; a pop that would block does nothing. */
  function RawStep(repaired: bool, s: Raw, op: Op): (Raw, Option<Task>) {
    match op
    case Push(t) =>
      if s.closed then (s, None)
      else (Raw(Pushed(s.items, Item(-t.priority, s.nextOrder, t)), s.nextOrder + 1, s.known + {t.id}, false), None)
    case Pop => TakeRoot(s)
    case TryPop => if s.closed then (s, None) else TakeRoot(s)
    case Remove(id) =>
      if id !in s.known then (s, None)
      else (s.(items := Filtered(repaired, s.items, id), known := s.known - {id}), None)
    case Close => (s.(closed := true), None)
  }

  function RawOutputs(repaired: bool, s: Raw, ops: seq<Op>): seq<Option<Task>>
    decreases |ops|
  {
    if ops == [] then []
    else [RawStep(repaired, s, ops[0]).1] + RawOutputs(repaired, RawStep(repaired, s, ops[0]).0, ops[1..])
  }

  lemma PushKeeps(items: seq<Item>, arrivals: seq<Item>, order: nat, known: set<TaskId>, t: Task)
    requires Holds(items, arrivals, order, known)
    ensures var x := Item(-t.priority, order, t);
      && Holds(Pushed(items, x), arrivals + [x], order + 1, known + {t.id})
      && Tasks(arrivals + [x]) == Tasks(arrivals) + [t]
      && (IsHeap(items) ==> IsHeap(Pushed(items, x)))
  {
    var x := Item(-t.priority, order, t);
    PushedConserves(items, x);
    PushHolds(items, arrivals, order, known, t, Pushed(items, x));
    if IsHeap(items) {
      PushedIsHeap(items, x);
    }
  }

  lemma RemoveKeeps(items: seq<Item>, arrivals: seq<Item>, order: nat, known: set<TaskId>, id: TaskId)
    requires Holds(items, arrivals, order, known)
    ensures Holds(Without(items, id), Without(arrivals, id), order, known - {id})
    ensures Tasks(Without(arrivals, id)) == Drop(Tasks(arrivals), id)
    ensures id !in known ==> Drop(Tasks(arrivals), id) == Tasks(arrivals)
    ensures IsHeap(Without(items, id)) <==> SlidesInOrder(items, id)
  {
    RemoveHolds(items, arrivals, order, known, id);
    FilterIsHeapIff(items, id);
  }

  // ----- The queue -----

  class Queue {
    var items: seq<Item>
    var nextOrder: nat
    var closed: bool
    var registry: map<TaskId, Task>
    ghost var arrivals: seq<Item>

    /** The list holds the queued entries, in whatever order. */
    ghost predicate Shape()
      reads this
    {
      Holds(items, arrivals, nextOrder, registry.Keys)
    }

    ghost predicate Valid()
      reads this
    {
      Shape() && IsHeap(items)
    }

    ghost function Pending(): seq<Task>
      reads this
    {
      Tasks(arrivals)
    }

    ghost function View(): Raw
      reads this
    {
      Raw(items, nextOrder, registry.Keys, closed)
    }

    constructor ()
      ensures Valid() && Pending() == [] && View() == EMPTY && registry == map[]
    {
      items, nextOrder, closed, registry, arrivals := [], 0, false, map[], [];
    }

    method Push(t: Task)
      requires Shape()
      modifies this
      ensures Shape() && (old(IsHeap(items)) ==> IsHeap(items))
      ensures View() == RawStep(false, old(View()), Op.Push(t)).0
      ensures Pending() == if closed then old(Pending()) else old(Pending()) + [t]
      ensures registry == if closed then old(registry) else old(registry)[t.id := t]
    {
      if closed {
        return;
      }
      var x := Item(-t.priority, nextOrder, t);
      PushKeeps(items, arrivals, nextOrder, registry.Keys, t);
      KeysAfter(registry, t.id, t);
      registry := registry[t.id := t];
      var pushed := HeapPush(items, x);
      items := pushed;
      arrivals := arrivals + [x];
      nextOrder := nextOrder + 1;
    }

    /** Pop and try_pop share this: the list's first entry leaves, and a heap stays a heap. */
    method TakeFirst() returns (t: Task)
      requires Shape() && items != []
      modifies this`items, this`arrivals
      ensures Shape() && t == old(items)[0].task && items == Popped(old(items))
      ensures old(IsHeap(items)) ==>
                && IsHeap(items) && old(Pending()) != []
                && t == old(Pending())[Best(old(Pending()))]
                && Pending() == RemoveAt(old(Pending()), Best(old(Pending())))
    {
      t := items[0].task;
      ghost var k := FindFirst(items, arrivals);
      if IsHeap(items) {
        HeapRootIsBest(items, arrivals, nextOrder);
        k := Best(Tasks(arrivals));
        PoppedIsHeap(items);
      }
      var rest := HeapPop(items);
      PoppedConserves(items);
      TakeHolds(items, arrivals, nextOrder, registry.Keys, k, rest);
      RemovedTasks(arrivals, k);
      items := rest;
      arrivals := RemoveAt(arrivals, k);
    }

    /** blocks tells that the queue is open and empty, where the program waits and changes nothing. */
    method Pop() returns (blocks: bool, t: Option<Task>)
      requires Shape()
      modifies this`items, this`arrivals
      ensures Shape() && (old(IsHeap(items)) ==> IsHeap(items))
      ensures (View(), t) == RawStep(false, old(View()), Op.Pop)
      ensures blocks <==> old(Pending()) == [] && !closed
      ensures t.None? <==> old(Pending()) == []
      ensures t.None? ==> Pending() == old(Pending())
      ensures t.Some? && old(IsHeap(items)) ==>
                && t.value == old(Pending())[Best(old(Pending()))]
                && Pending() == RemoveAt(old(Pending()), Best(old(Pending())))
    {
      SameSize(items, arrivals);
      if items == [] {
        return !closed, None;
      }
      var x := TakeFirst();
      return false, Some(x);
    }

    method TryPop() returns (t: Option<Task>)
      requires Shape()
      modifies this`items, this`arrivals
      ensures Shape() && (old(IsHeap(items)) ==> IsHeap(items))
      ensures (View(), t) == RawStep(false, old(View()), Op.TryPop)
      ensures t.None? <==> old(Pending()) == [] || closed
      ensures t.None? ==> Pending() == old(Pending())
      ensures t.Some? && old(IsHeap(items)) ==>
                && t.value == old(Pending())[Best(old(Pending()))]
                && Pending() == RemoveAt(old(Pending()), Best(old(Pending())))
    {
      SameSize(items, arrivals);
      if items == [] || closed {
        return None;
      }
      var x := TakeFirst();
      return Some(x);
    }

    /**
     The filter as written: drops exactly the tasks with that id, and leaves a heap exactly
     when no kept entry comes before the one that slides into its parent's place.
     */
    method Remove(id: TaskId) returns (removed: bool)
      requires Shape()
      modifies this`items, this`arrivals, this`registry
      ensures Shape()
      ensures View() == RawStep(false, old(View()), Op.Remove(id)).0
      ensures removed <==> id in old(registry)
      ensures forall k :: k in registry ==> registry[k] == old(registry)[k]
      ensures Pending() == Drop(old(Pending()), id)
      ensures IsHeap(items) <==> if removed then old(SlidesInOrder(items, id)) else old(IsHeap(items))
    {
      removed := id in registry;
      RemoveKeeps(items, arrivals, nextOrder, registry.Keys, id);
      KeysLeft(registry, id);
      if removed {
        registry := registry - {id};
        items := Without(items, id);
        arrivals := Without(arrivals, id);
      }
    }

    /** The same, followed by heapq.heapify: the repaired form keeps the order. */
    method RemoveAndHeapify(id: TaskId) returns (removed: bool)
      requires Shape()
      modifies this`items, this`arrivals, this`registry
      ensures Shape() && (removed || old(IsHeap(items)) ==> IsHeap(items))
      ensures View() == RawStep(true, old(View()), Op.Remove(id)).0
      ensures removed <==> id in old(registry)
      ensures forall k :: k in registry ==> registry[k] == old(registry)[k]
      ensures Pending() == Drop(old(Pending()), id)
    {
      removed := Remove(id);
      if removed {
        HeapifiedIsHeap(items);
        var heap := Heapify(items);
        items := heap;
      }
    }

    method Close()
      modifies this`closed
      ensures closed
    {
      closed := true;
    }
  }

  lemma KeysAfter(registry: map<TaskId, Task>, id: TaskId, t: Task)
    ensures registry[id := t].Keys == registry.Keys + {id}
  {
  }

  lemma KeysLeft(registry: map<TaskId, Task>, id: TaskId)
    ensures (registry - {id}).Keys == registry.Keys - {id}
  {
  }

  // ----- Whole runs against the plain list -----

  datatype Spec = Spec(pending: seq<Task>, known: set<TaskId>, closed: bool)

  function TakeBest(s: Spec): (Spec, Option<Task>) {
    if s.pending == [] then (s, None)
    else (s.(pending := RemoveAt(s.pending, Best(s.pending))), Some(s.pending[Best(s.pending)]))
  }

  /** One operation on the plain list, with the task it hands out. */
  function Step(s: Spec, op: Op): (Spec, Option<Task>) {
    match op
    case Push(t) =>
      if s.closed then (s, None) else (s.(pending := s.pending + [t], known := s.known + {t.id}), None)
    case Pop => TakeBest(s)
    case TryPop => if s.closed then (s, None) else TakeBest(s)
    case Remove(id) => (s.(pending := Drop(s.pending, id), known := s.known - {id}), None)
    case Close => (s.(closed := true), None)
  }

  function Outputs(s: Spec, ops: seq<Op>): seq<Option<Task>>
    decreases |ops|
  {
    if ops == [] then []
    else [Step(s, ops[0]).1] + Outputs(Step(s, ops[0]).0, ops[1..])
  }

  const NOTHING := Spec([], {}, false)

  /** The operation is no removal, or one that leaves a heap. */
  ghost predicate KeepsHeap(s: Raw, op: Op) {
    op.Remove? && op.id in s.known ==> SlidesInOrder(s.items, op.id)
  }

  /** Every removal of the run, as written, leaves a heap. */
  ghost predicate KeepsHeaps(s: Raw, ops: seq<Op>)
    decreases |ops|
  {
    ops == [] || (KeepsHeap(s, ops[0]) && KeepsHeaps(RawStep(false, s, ops[0]).0, ops[1..]))
  }

  /** The heap s stands for the plain list of its arrivals. */
  ghost predicate Refined(s: Raw, arrivals: seq<Item>) {
    Holds(s.items, arrivals, s.nextOrder, s.known) && IsHeap(s.items)
  }

  function SpecOf(s: Raw, arrivals: seq<Item>): Spec {
    Spec(Tasks(arrivals), s.known, s.closed)
  }

  lemma PushRefines(repaired: bool, s: Raw, arrivals: seq<Item>, t: Task) returns (next: seq<Item>)
    requires Refined(s, arrivals)
    ensures var (s', given) := RawStep(repaired, s, Op.Push(t));
      Refined(s', next) && (SpecOf(s', next), given) == Step(SpecOf(s, arrivals), Op.Push(t))
  {
    if s.closed {
      return arrivals;
    }
    PushKeeps(s.items, arrivals, s.nextOrder, s.known, t);
    return arrivals + [Item(-t.priority, s.nextOrder, t)];
  }

  lemma TakeRefines(s: Raw, arrivals: seq<Item>) returns (next: seq<Item>)
    requires Refined(s, arrivals)
    ensures var (s', given) := TakeRoot(s);
      Refined(s', next) && (SpecOf(s', next), given) == TakeBest(SpecOf(s, arrivals))
  {
    SameSize(s.items, arrivals);
    if s.items == [] {
      return arrivals;
    }
    HeapRootIsBest(s.items, arrivals, s.nextOrder);
    var k := Best(Tasks(arrivals));
    PoppedConserves(s.items);
    PoppedIsHeap(s.items);
    TakeHolds(s.items, arrivals, s.nextOrder, s.known, k, Popped(s.items));
    RemovedTasks(arrivals, k);
    return RemoveAt(arrivals, k);
  }

  lemma HoldsReordered(items: seq<Item>, reordered: seq<Item>, arrivals: seq<Item>, order: nat, known: set<TaskId>)
    requires Holds(items, arrivals, order, known) && multiset(reordered) == multiset(items)
    ensures Holds(reordered, arrivals, order, known)
  {
  }

  lemma FilterRefines(repaired: bool, s: Raw, arrivals: seq<Item>, id: TaskId)
    requires Refined(s, arrivals) && (repaired || SlidesInOrder(s.items, id))
    ensures Holds(Filtered(repaired, s.items, id), Without(arrivals, id), s.nextOrder, s.known - {id})
    ensures IsHeap(Filtered(repaired, s.items, id))
    ensures Tasks(Without(arrivals, id)) == Drop(Tasks(arrivals), id)
  {
    RemoveKeeps(s.items, arrivals, s.nextOrder, s.known, id);
    if repaired {
      HeapifiedIsHeap(Without(s.items, id));
      HoldsReordered(Without(s.items, id), Heapified(Without(s.items, id)), Without(arrivals, id),
                     s.nextOrder, s.known - {id});
    }
  }

  lemma RemoveRefines(repaired: bool, s: Raw, arrivals: seq<Item>, id: TaskId) returns (next: seq<Item>)
    requires Refined(s, arrivals) && (repaired || KeepsHeap(s, Op.Remove(id)))
    ensures var (s', given) := RawStep(repaired, s, Op.Remove(id));
      Refined(s', next) && (SpecOf(s', next), given) == Step(SpecOf(s, arrivals), Op.Remove(id))
  {
    if id !in s.known {
      RemoveKeeps(s.items, arrivals, s.nextOrder, s.known, id);
      assert s.known - {id} == s.known;
      return arrivals;
    }
    FilterRefines(repaired, s, arrivals, id);
    return Without(arrivals, id);
  }

  lemma StepRefines(repaired: bool, s: Raw, arrivals: seq<Item>, op: Op) returns (next: seq<Item>)
    requires Refined(s, arrivals) && (repaired || KeepsHeap(s, op))
    ensures var (s', given) := RawStep(repaired, s, op);
      Refined(s', next) && (SpecOf(s', next), given) == Step(SpecOf(s, arrivals), op)
  {
    match op {
      case Push(t) => next := PushRefines(repaired, s, arrivals, t);
      case Remove(id) => next := RemoveRefines(repaired, s, arrivals, id);
      case Close => next := arrivals;
      case _ =>
        if op.TryPop? && s.closed {
          next := arrivals;
        } else {
          next := TakeRefines(s, arrivals);
        }
    }
  }

  /** The queue hands out what the plain list hands out, as long as every removal leaves a heap or is repaired. */
  lemma {:induction false} RunRefines(repaired: bool, s: Raw, arrivals: seq<Item>, ops: seq<Op>)
    requires Refined(s, arrivals) && (repaired || KeepsHeaps(s, ops))
    ensures RawOutputs(repaired, s, ops) == Outputs(SpecOf(s, arrivals), ops)
    decreases |ops|
  {
    if ops != [] {
      var next := StepRefines(repaired, s, arrivals, ops[0]);
      RunRefines(repaired, RawStep(repaired, s, ops[0]).0, next, ops[1..]);
    }
  }

  /** Drives a new queue through any operations, with the removal as written or repaired. */
  method Run(repaired: bool, ops: seq<Op>) returns (out: seq<Option<Task>>)
    ensures out == RawOutputs(repaired, EMPTY, ops)
    ensures repaired || KeepsHeaps(EMPTY, ops) ==> out == Outputs(NOTHING, ops)
  {
    var q := new Queue();
    out := [];
    for i := 0 to |ops|
      invariant fresh(q) && q.Shape()
      invariant out + RawOutputs(repaired, q.View(), ops[i..]) == RawOutputs(repaired, EMPTY, ops)
    {
      OneOutput(repaired, q.View(), ops, i, out);
      var given := Perform(q, repaired, ops[i]);
      out := out + [given];
    }
    StartRefines(repaired, ops);
  }

  lemma OneOutput(repaired: bool, s: Raw, ops: seq<Op>, i: nat, out: seq<Option<Task>>)
    requires i < |ops|
    ensures var (s', given) := RawStep(repaired, s, ops[i]);
      out + RawOutputs(repaired, s, ops[i..]) == (out + [given]) + RawOutputs(repaired, s', ops[i + 1..])
  {
    var (s', given) := RawStep(repaired, s, ops[i]);
    var rest := RawOutputs(repaired, s', ops[i + 1..]);
    assert ops[i..][0] == ops[i] && ops[i..][1..] == ops[i + 1..];
    assert out + ([given] + rest) == (out + [given]) + rest;
  }

  lemma StartRefines(repaired: bool, ops: seq<Op>)
    ensures repaired || KeepsHeaps(EMPTY, ops) ==> RawOutputs(repaired, EMPTY, ops) == Outputs(NOTHING, ops)
  {
    if repaired || KeepsHeaps(EMPTY, ops) {
      RunRefines(repaired, EMPTY, [], ops);
    }
  }

  method Perform(q: Queue, repaired: bool, op: Op) returns (given: Option<Task>)
    requires q.Shape()
    modifies q
    ensures q.Shape()
    ensures (q.View(), given) == RawStep(repaired, old(q.View()), op)
  {
    given := None;
    match op {
      case Push(t) => q.Push(t);
      case Pop =>
        var blocks, t := q.Pop();
        given := t;
      case TryPop => given := q.TryPop();
      case Remove(id) =>
        if repaired {
          var _ := q.RemoveAndHeapify(id);
        } else {
          var _ := q.Remove(id);
        }
      case Close => q.Close();
    }
  }

  // ----- The filter as written -----

  function ItemOf(id: string, priority: int, order: nat): Item {
    Item(-priority, order, Task(TaskId(id), priority))
  }

  /** Three pushes and a remove of the first: the task with the higher priority is no longer first. */
  lemma RemoveLosesTheOrder()
    ensures var h := [ItemOf("a", 9, 0), ItemOf("b", 1, 1), ItemOf("c", 8, 2)];
            IsHeap(h) && !IsHeap(Without(h, TaskId("a")))
            && !FirstOf(Without(h, TaskId("a"))[0], Without(h, TaskId("a")))
  {
    var a, b, c := ItemOf("a", 9, 0), ItemOf("b", 1, 1), ItemOf("c", 8, 2);
    var h := [a, b, c];
    assert "a"[0] != "b"[0] && "a"[0] != "c"[0];
    FilterRootExact(h, TaskId("a"));
    assert h[1..] == [b, c] && c in h[1..];
    assert Before(c, b) && !Ordered(h[1..], 1);
  }

  const SIX := [ItemOf("a", 5, 0), ItemOf("b", 4, 1), ItemOf("c", 2, 2),
                ItemOf("d", 1, 3), ItemOf("e", 3, 4), ItemOf("f", 0, 5)]
  const FIVE := [SIX[0], SIX[2], SIX[3], SIX[4], SIX[5]]

  lemma WithoutSecond()
    ensures Without(SIX, TaskId("b")) == FIVE
  {
    assert forall i :: 0 <= i < |SIX| && i != 1 ==> SIX[i].task.id.value[0] != "b"[0];
    assert SIX == SIX[..1] + [SIX[1]] + SIX[2..];
    WithoutAbsent(SIX[..1], TaskId("b"));
    WithoutAppend(SIX[..1], [SIX[1]] + SIX[2..], TaskId("b"));
    assert ([SIX[1]] + SIX[2..])[1..] == SIX[2..];
    WithoutAbsent(SIX[2..], TaskId("b"));
    assert SIX[..1] + ([SIX[1]] + SIX[2..]) == SIX;
  }

  lemma PoppedFive()
    ensures Popped(FIVE) == [SIX[2], SIX[4], SIX[3], SIX[5]]
  {
    var h := FIVE[..4][0 := FIVE[4]];
    assert h == [SIX[5], SIX[2], SIX[3], SIX[4]];
    var once := Swap(h, 0, 1);
    assert once == [SIX[2], SIX[5], SIX[3], SIX[4]];
    var twice := Swap(once, 1, 3);
    assert twice == [SIX[2], SIX[4], SIX[3], SIX[5]];
    assert FirstChild(h, 0) == 1 && FirstChild(once, 1) == 3;
    assert ToLeaf(once, 1) == (twice, 3);
    assert ToLeaf(h, 0) == (twice, 3);
  }

  lemma SixIsHeap()
    ensures IsHeap(SIX) && !IsHeap(FIVE)
  {
    assert Before(FIVE[3], FIVE[1]) && !Ordered(FIVE, 3);
  }

  /**
   Removing an entry that is not the root can also go wrong, one pop later: after pushes of
   priority 5, 4, 2, 1, 3 and 0 and a removal of the second task, the first pop is right,
   and the second hands out priority 2 while 3 is queued.
   */
  lemma RemoveLosesALaterPop()
    ensures IsHeap(SIX) && !SlidesInOrder(SIX, TaskId("b"))
    ensures var r := Without(SIX, TaskId("b"));
      && r != [] && FirstOf(r[0], r) && Popped(r) != [] && Popped(r)[0].task.priority == 2
      && SIX[4] in Popped(r) && SIX[4].task.priority == 3
  {
    WithoutSecond();
    PoppedFive();
    FilterKeepsRoot(SIX, TaskId("b")) by {
      assert "a"[0] != "b"[0];
    }
    FilterIsHeapIff(SIX, TaskId("b"));
    SixIsHeap();
  }
}
