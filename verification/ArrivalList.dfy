/** What the task queue (dxrk/task.py, Queue) refines: a plain list in arrival order. */
module ArrivalList {
  // The oldest task of maximal priority is taken first.

  import opened BinaryHeap

  // ----- The specification: a list in arrival order -----

  /** The oldest task of maximal priority. */
  function Best(s: seq<Task>): (k: nat)
    requires s != []
    ensures k < |s|
    ensures forall i :: 0 <= i < |s| ==> s[i].priority <= s[k].priority
    ensures forall i :: 0 <= i < k ==> s[i].priority < s[k].priority
  {
    if |s| == 1 then 0
    else
      var k := Best(s[1..]);
      assert forall i :: 1 <= i < |s| ==> s[i] == s[1..][i - 1];
      if s[0].priority >= s[1 + k].priority then 0 else k + 1
  }

  function RemoveAt<T>(s: seq<T>, k: nat): seq<T>
    requires k < |s|
  {
    s[..k] + s[k + 1..]
  }

  function Drop(s: seq<Task>, id: TaskId): seq<Task> {
    if s == [] then []
    else if s[0].id == id then Drop(s[1..], id)
    else [s[0]] + Drop(s[1..], id)
  }

  // ----- The abstraction: entries in arrival order -----

  function Tasks(arrivals: seq<Item>): (s: seq<Task>)
    ensures |s| == |arrivals|
  {
    seq(|arrivals|, i requires 0 <= i < |arrivals| => arrivals[i].task)
  }

  /** Entries of rank -priority, numbered upwards and below bound. */
  ghost predicate Arrivals(s: seq<Item>, bound: nat) {
    s == [] ||
    var x := s[|s| - 1];
    x.rank == -x.task.priority && x.order < bound && Arrivals(s[..|s| - 1], x.order)
  }

  lemma {:induction false} ArrivalsByIndex(s: seq<Item>, bound: nat)
    ensures Arrivals(s, bound) <==> Indexed(s, bound)
  {
    if s != [] {
      var init, x := s[..|s| - 1], s[|s| - 1];
      ArrivalsByIndex(init, x.order);
      if Indexed(s, bound) {
        assert forall i :: 0 <= i < |init| ==> init[i] == s[i];
      }
      if Indexed(init, x.order) {
        assert forall i :: 0 <= i < |s| ==> s[i] == if i < |init| then init[i] else x;
      }
    }
  }

  ghost predicate Indexed(arrivals: seq<Item>, nextOrder: nat) {
    && (forall i :: 0 <= i < |arrivals| ==> arrivals[i].rank == -arrivals[i].task.priority)
    && (forall i :: 0 <= i < |arrivals| ==> arrivals[i].order < nextOrder)
    && (forall i, j :: 0 <= i < j < |arrivals| ==> arrivals[i].order < arrivals[j].order)
  }

  /** The first entry of the heap order is the oldest task of maximal priority. */
  lemma FirstIsBest(arrivals: seq<Item>, nextOrder: nat, x: Item)
    requires Indexed(arrivals, nextOrder) && arrivals != []
    requires x in arrivals && FirstOf(x, arrivals)
    ensures x == arrivals[Best(Tasks(arrivals))]
  {
    var k := Best(Tasks(arrivals));
    var i :| 0 <= i < |arrivals| && arrivals[i] == x;
    assert Tasks(arrivals)[i].priority <= Tasks(arrivals)[k].priority;
    assert !Before(arrivals[k], x);
  }

  lemma HeapRootIsBest(items: seq<Item>, arrivals: seq<Item>, nextOrder: nat)
    requires IsHeap(items) && items != [] && multiset(items) == multiset(arrivals)
    requires Arrivals(arrivals, nextOrder)
    ensures arrivals != [] && items[0] == arrivals[Best(Tasks(arrivals))]
  {
    assert items[0] in multiset(arrivals);
    forall y | y in arrivals
      ensures !Before(y, items[0])
    {
      assert y in multiset(items);
      var i :| 0 <= i < |items| && items[i] == y;
      RootIsFirst(items, i);
    }
    ArrivalsByIndex(arrivals, nextOrder);
    FirstIsBest(arrivals, nextOrder, items[0]);
  }

  lemma RemovedMultiset<T>(s: seq<T>, k: nat)
    requires k < |s|
    ensures multiset(RemoveAt(s, k)) + multiset{s[k]} == multiset(s)
  {
    assert s == s[..k] + [s[k]] + s[k + 1..];
  }

  lemma RemovedArrivals(arrivals: seq<Item>, nextOrder: nat, k: nat)
    requires Indexed(arrivals, nextOrder) && k < |arrivals|
    ensures Indexed(RemoveAt(arrivals, k), nextOrder)
  {
  }

  lemma RemovedTasks(arrivals: seq<Item>, k: nat)
    requires k < |arrivals|
    ensures Tasks(RemoveAt(arrivals, k)) == RemoveAt(Tasks(arrivals), k)
  {
  }

  lemma {:induction false} WithoutTasks(s: seq<Item>, id: TaskId)
    ensures Tasks(Without(s, id)) == Drop(Tasks(s), id)
  {
    if s != [] {
      WithoutTasks(s[1..], id);
      assert Tasks(s[1..]) == Tasks(s)[1..];
      var kept := Without(s[1..], id);
      assert Tasks([s[0]] + kept) == [s[0].task] + Tasks(kept);
    }
  }

  ghost predicate Increasing(s: seq<Item>) {
    forall i, j :: 0 <= i < j < |s| ==> s[i].order < s[j].order
  }

  lemma {:induction false} WithoutIncreasing(s: seq<Item>, id: TaskId)
    requires Increasing(s)
    ensures Increasing(Without(s, id))
  {
    if s != [] {
      var rest, kept := s[1..], Without(s[1..], id);
      WithoutIncreasing(rest, id);
      WithoutMembers(rest, id);
      forall i | 0 <= i < |kept|
        ensures s[0].order < kept[i].order
      {
        var k :| 0 <= k < |rest| && rest[k] == kept[i];
        assert rest[k] == s[k + 1];
      }
    }
  }

  lemma FilteredArrivals(arrivals: seq<Item>, nextOrder: nat, id: TaskId)
    requires Indexed(arrivals, nextOrder)
    ensures Indexed(Without(arrivals, id), nextOrder)
  {
    WithoutIncreasing(arrivals, id);
    WithoutMembers(arrivals, id);
    var kept := Without(arrivals, id);
    forall i | 0 <= i < |kept|
      ensures kept[i].rank == -kept[i].task.priority && kept[i].order < nextOrder
    {
      var k :| 0 <= k < |arrivals| && arrivals[k] == kept[i];
    }
  }

  // ----- What every operation keeps -----

  /** items lists the arrivals in some order, and all of them are registered. */
  ghost predicate Holds(items: seq<Item>, arrivals: seq<Item>, nextOrder: nat, known: set<TaskId>) {
    && multiset(items) == multiset(arrivals)
    && Arrivals(arrivals, nextOrder)
    && forall i :: 0 <= i < |arrivals| ==> arrivals[i].task.id in known
  }

  lemma PushHolds(items: seq<Item>, arrivals: seq<Item>, nextOrder: nat, known: set<TaskId>, t: Task, pushed: seq<Item>)
    requires Holds(items, arrivals, nextOrder, known)
    requires multiset(pushed) == multiset(items) + multiset{Item(-t.priority, nextOrder, t)}
    ensures Holds(pushed, arrivals + [Item(-t.priority, nextOrder, t)], nextOrder + 1, known + {t.id})
    ensures Tasks(arrivals + [Item(-t.priority, nextOrder, t)]) == Tasks(arrivals) + [t]
  {
    assert (arrivals + [Item(-t.priority, nextOrder, t)])[..|arrivals|] == arrivals;
  }

  lemma TakeHolds(items: seq<Item>, arrivals: seq<Item>, nextOrder: nat, known: set<TaskId>, k: nat, rest: seq<Item>)
    requires Holds(items, arrivals, nextOrder, known) && items != [] && k < |arrivals| && arrivals[k] == items[0]
    requires multiset(rest) + multiset{items[0]} == multiset(items)
    ensures Holds(rest, RemoveAt(arrivals, k), nextOrder, known)
  {
    ArrivalsByIndex(arrivals, nextOrder);
    ArrivalsByIndex(RemoveAt(arrivals, k), nextOrder);
    RemovedMultiset(arrivals, k);
    RemovedArrivals(arrivals, nextOrder, k);
    SubtractOne(rest, RemoveAt(arrivals, k), items[0]);
  }

  lemma SubtractOne(s: seq<Item>, t: seq<Item>, x: Item)
    requires multiset(s) + multiset{x} == multiset(t) + multiset{x}
    ensures multiset(s) == multiset(t)
  {
    assert multiset(s) == multiset(s) + multiset{x} - multiset{x};
    assert multiset(t) == multiset(t) + multiset{x} - multiset{x};
  }

  lemma WithoutAgrees(s: seq<Item>, t: seq<Item>, id: TaskId)
    requires multiset(s) == multiset(t)
    ensures multiset(Without(s, id)) == multiset(Without(t, id))
  {
    forall x
      ensures multiset(Without(s, id))[x] == multiset(Without(t, id))[x]
    {
      WithoutMultiplicity(s, id, x);
      WithoutMultiplicity(t, id, x);
    }
  }

  lemma RemoveHolds(items: seq<Item>, arrivals: seq<Item>, nextOrder: nat, known: set<TaskId>, id: TaskId)
    requires Holds(items, arrivals, nextOrder, known)
    ensures Holds(Without(items, id), Without(arrivals, id), nextOrder, known - {id})
    ensures Tasks(Without(arrivals, id)) == Drop(Tasks(arrivals), id)
    ensures id !in known ==> Without(arrivals, id) == arrivals
  {
    WithoutTasks(arrivals, id);
    ArrivalsByIndex(arrivals, nextOrder);
    ArrivalsByIndex(Without(arrivals, id), nextOrder);
    if id !in known {
      UnknownIsAbsent(items, arrivals, nextOrder, known, id);
    }
    WithoutAgrees(items, arrivals, id);
    FilteredArrivals(arrivals, nextOrder, id);
    WithoutMembers(arrivals, id);
    var kept := Without(arrivals, id);
    forall i | 0 <= i < |kept|
      ensures kept[i].task.id in known - {id}
    {
      var k :| 0 <= k < |arrivals| && arrivals[k] == kept[i];
    }
  }

  lemma UnknownIsAbsent(items: seq<Item>, arrivals: seq<Item>, nextOrder: nat, known: set<TaskId>, id: TaskId)
    requires Holds(items, arrivals, nextOrder, known) && id !in known
    ensures Without(arrivals, id) == arrivals
  {
    forall i | 0 <= i < |arrivals|
      ensures arrivals[i].task.id != id
    {
      assert arrivals[i].task.id in known;
    }
    WithoutAbsent(arrivals, id);
  }

  lemma SameSize(items: seq<Item>, arrivals: seq<Item>)
    requires multiset(items) == multiset(arrivals)
    ensures |items| == |arrivals|
  {
    assert |multiset(items)| == |items| && |multiset(arrivals)| == |arrivals|;
  }

  lemma FindFirst(items: seq<Item>, arrivals: seq<Item>) returns (k: nat)
    requires multiset(items) == multiset(arrivals) && items != []
    ensures k < |arrivals| && arrivals[k] == items[0]
  {
    assert items[0] in multiset(arrivals);
    k :| 0 <= k < |arrivals| && arrivals[k] == items[0];
  }
}
