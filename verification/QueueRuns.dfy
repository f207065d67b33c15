/** What whole runs of the task queue (dxrk/task.py, Queue) hand out. */
module QueueRuns {
  // The laws speak of the plain list, whose runs are those of the queue as long as every removal
  // leaves a heap: draining is a stable sort by priority, no task is lost or handed out twice, a
  // removed task does not come back, and a closed queue takes nothing in.

  import opened Wrappers
  import opened Ordering
  import opened BinaryHeap
  import opened ArrivalList
  import opened TaskQueue

  /** The list after a run. */
  function After(s: Spec, ops: seq<Op>): Spec
    decreases |ops|
  {
    if ops == [] then s else After(Step(s, ops[0]).0, ops[1..])
  }

  lemma {:induction false} OneOutputEach(s: Spec, ops: seq<Op>)
    ensures |Outputs(s, ops)| == |ops|
    decreases |ops|
  {
    if ops != [] {
      OneOutputEach(Step(s, ops[0]).0, ops[1..]);
    }
  }

  lemma {:induction false} RunInParts(s: Spec, ops: seq<Op>, more: seq<Op>)
    ensures Outputs(s, ops + more) == Outputs(s, ops) + Outputs(After(s, ops), more)
    decreases |ops|
  {
    if ops == [] {
      assert ops + more == more;
    } else {
      var given, s' := Step(s, ops[0]).1, Step(s, ops[0]).0;
      assert (ops + more)[0] == ops[0] && (ops + more)[1..] == ops[1..] + more;
      RunInParts(s', ops[1..], more);
      assert ([given] + Outputs(s', ops[1..])) + Outputs(After(s, ops), more)
          == [given] + (Outputs(s', ops[1..]) + Outputs(After(s, ops), more));
    }
  }

  // ----- Draining -----

  predicate MoreUrgent(a: Task, b: Task) {
    a.priority > b.priority
  }

  function Pops(n: nat): seq<Op> {
    if n == 0 then [] else [Op.Pop] + Pops(n - 1)
  }

  /** The stable sort by priority, highest first. */
  function ByUrgency(s: seq<Task>): (r: seq<Task>)
    ensures |r| == |s|
  {
    assert |multiset(StableSort(MoreUrgent, s))| == |multiset(s)|;
    StableSort(MoreUrgent, s)
  }

  lemma ByUrgencyCons(x: Task, s: seq<Task>)
    ensures ByUrgency([x] + s) == Insert(MoreUrgent, x, ByUrgency(s))
  {
    assert ([x] + s)[1..] == s;
  }

  lemma InsertCons(x: Task, first: Task, tail: seq<Task>)
    ensures Insert(MoreUrgent, x, [first] + tail)
         == if MoreUrgent(first, x) then [first] + Insert(MoreUrgent, x, tail) else [x] + ([first] + tail)
  {
    assert ([first] + tail)[1..] == tail;
  }

  lemma BestCons(x: Task, s: seq<Task>)
    requires s != []
    ensures Best([x] + s) == if MoreUrgent(s[Best(s)], x) then Best(s) + 1 else 0
  {
    assert ([x] + s)[1..] == s;
  }

  lemma RemoveBehind(x: Task, s: seq<Task>, k: nat)
    requires k < |s|
    ensures RemoveAt([x] + s, k + 1) == [x] + RemoveAt(s, k)
  {
    assert ([x] + s)[..k + 1] == [x] + s[..k] && ([x] + s)[k + 2..] == s[k + 1..];
    assert ([x] + s[..k]) + s[k + 1..] == [x] + (s[..k] + s[k + 1..]);
  }

  lemma SortStep(x: Task, rest: seq<Task>, best: Task, left: seq<Task>)
    requires ByUrgency(rest) == [best] + ByUrgency(left)
    ensures ByUrgency([x] + rest)
         == if MoreUrgent(best, x) then [best] + ByUrgency([x] + left) else [x] + ByUrgency(rest)
  {
    ByUrgencyCons(x, rest);
    ByUrgencyCons(x, left);
    InsertCons(x, best, ByUrgency(left));
  }

  lemma TakeStep(x: Task, rest: seq<Task>)
    requires rest != []
    ensures var s, k := [x] + rest, Best(rest);
      if MoreUrgent(rest[k], x) then s[Best(s)] == rest[k] && RemoveAt(s, Best(s)) == [x] + RemoveAt(rest, k)
      else s[Best(s)] == x && RemoveAt(s, Best(s)) == rest
  {
    BestCons(x, rest);
    RemoveBehind(x, rest, Best(rest));
  }

  /** The best pending task is the first of that order. */
  lemma {:induction false} BestSortsFirst(s: seq<Task>)
    requires s != []
    ensures ByUrgency(s) == [s[Best(s)]] + ByUrgency(RemoveAt(s, Best(s)))
  {
    assert s == [s[0]] + s[1..];
    if |s| == 1 {
      ByUrgencyCons(s[0], []);
    } else {
      var rest := s[1..];
      BestSortsFirst(rest);
      TakeStep(s[0], rest);
      SortStep(s[0], rest, rest[Best(rest)], RemoveAt(rest, Best(rest)));
    }
  }

  /** What n pops hand out. */
  function Drained(pending: seq<Task>, k: nat): Option<Task> {
    if k < |pending| then Some(ByUrgency(pending)[k]) else None
  }

  lemma PopsUnfold(s: Spec, n: nat, k: nat)
    requires k < n
    ensures |Outputs(s, Pops(n))| == n && |Outputs(TakeBest(s).0, Pops(n - 1))| == n - 1
    ensures Outputs(s, Pops(n))[k] == if k == 0 then TakeBest(s).1 else Outputs(TakeBest(s).0, Pops(n - 1))[k - 1]
  {
    assert Pops(n)[0] == Op.Pop && Pops(n)[1..] == Pops(n - 1);
    OneOutputEach(s, Pops(n));
    OneOutputEach(TakeBest(s).0, Pops(n - 1));
    PopsLength(n - 1);
  }

  lemma TakeDrains(s: Spec, k: nat)
    ensures Drained(s.pending, k) == if k == 0 then TakeBest(s).1 else Drained(TakeBest(s).0.pending, k - 1)
  {
    if s.pending != [] {
      BestSortsFirst(s.pending);
    }
  }

  predicate PopGives(s: Spec, n: nat, k: nat)
    requires k < n
  {
    |Outputs(s, Pops(n))| == n && Outputs(s, Pops(n))[k] == Drained(s.pending, k)
  }

  lemma NextPop(s: Spec, n: nat, k: nat)
    requires k < n && (k == 0 || PopGives(TakeBest(s).0, n - 1, k - 1))
    ensures PopGives(s, n, k)
  {
    PopsUnfold(s, n, k);
    TakeDrains(s, k);
  }

  /** Pops hand out the pending tasks in the stable order of their priorities, and then nothing. */
  lemma {:induction false} DrainIsSorted(s: Spec, n: nat, k: nat)
    requires k < n
    ensures PopGives(s, n, k)
    decreases k
  {
    if k > 0 {
      DrainIsSorted(TakeBest(s).0, n - 1, k - 1);
    }
    NextPop(s, n, k);
  }

  lemma {:induction false} PopsLength(n: nat)
    ensures |Pops(n)| == n
  {
    if n > 0 {
      PopsLength(n - 1);
    }
  }

  function Pushes(tasks: seq<Task>): seq<Op> {
    if tasks == [] then [] else [Op.Push(tasks[0])] + Pushes(tasks[1..])
  }

  lemma {:induction false} PushesPend(s: Spec, tasks: seq<Task>)
    requires !s.closed
    ensures After(s, Pushes(tasks)).pending == s.pending + tasks && |Pushes(tasks)| == |tasks|
    decreases |tasks|
  {
    if tasks == [] {
      assert s.pending + tasks == s.pending;
    } else {
      var s' := Step(s, Op.Push(tasks[0])).0;
      PushesPend(s', tasks[1..]);
      assert Pushes(tasks)[0] == Op.Push(tasks[0]) && Pushes(tasks)[1..] == Pushes(tasks[1..]);
      Regroup(s.pending, tasks);
    }
  }

  lemma Regroup(s: seq<Task>, tasks: seq<Task>)
    requires tasks != []
    ensures (s + [tasks[0]]) + tasks[1..] == s + tasks
  {
  }

  ghost predicate NoRemoval(ops: seq<Op>) {
    forall i :: 0 <= i < |ops| ==> !ops[i].Remove?
  }

  lemma {:induction false} NoRemovalKeepsHeaps(s: Raw, ops: seq<Op>)
    requires NoRemoval(ops)
    ensures KeepsHeaps(s, ops)
    decreases |ops|
  {
    if ops != [] {
      NoRemovalKeepsHeaps(RawStep(false, s, ops[0]).0, ops[1..]);
    }
  }

  lemma {:induction false} PushesAndPops(tasks: seq<Task>, n: nat)
    ensures NoRemoval(Pushes(tasks)) && NoRemoval(Pops(n))
    decreases |tasks|, n
  {
    if tasks != [] {
      PushesAndPops(tasks[1..], 0);
    }
    if n > 0 {
      PushesAndPops([], n - 1);
    }
  }

  /** The queue itself: pushing any tasks and popping as often sorts them stably by priority. */
  lemma QueueSorts(repaired: bool, tasks: seq<Task>, k: nat)
    requires k < |tasks|
    ensures var out := RawOutputs(repaired, EMPTY, Pushes(tasks) + Pops(|tasks|));
      |out| == 2 * |tasks| && out[|tasks| + k] == Some(ByUrgency(tasks)[k])
  {
    var pushes, pops := Pushes(tasks), Pops(|tasks|);
    PushesAndPops(tasks, |tasks|);
    NoRemovalKeepsHeaps(EMPTY, pushes + pops);
    StartRefines(repaired, pushes + pops);
    RunInParts(NOTHING, pushes, pops);
    PushesPend(NOTHING, tasks);
    OneOutputEach(NOTHING, pushes);
    assert [] + tasks == tasks;
    DrainIsSorted(After(NOTHING, pushes), |tasks|, k);
    PopsLength(|tasks|);
    OneOutputEach(NOTHING, pushes + pops);
  }

  // ----- Conservation -----

  /** The tasks pushed before the queue is closed. */
  function Accepted(closed: bool, ops: seq<Op>): seq<Task>
    decreases |ops|
  {
    if closed || ops == [] then []
    else (if ops[0].Push? then [ops[0].task] else []) + Accepted(ops[0].Close?, ops[1..])
  }

  function Handed(out: seq<Option<Task>>): seq<Task> {
    if out == [] then [] else (if out[0].Some? then [out[0].value] else []) + Handed(out[1..])
  }

  function Matching(s: seq<Task>, id: TaskId): seq<Task> {
    if s == [] then [] else (if s[0].id == id then [s[0]] else []) + Matching(s[1..], id)
  }

  /** The pending tasks that removals drop. */
  function Dropped(s: Spec, ops: seq<Op>): seq<Task>
    decreases |ops|
  {
    if ops == [] then []
    else
      (if ops[0].Remove? then Matching(s.pending, ops[0].id) else []) + Dropped(Step(s, ops[0]).0, ops[1..])
  }

  lemma {:induction false} DropSplits(s: seq<Task>, id: TaskId)
    ensures multiset(s) == multiset(Matching(s, id)) + multiset(Drop(s, id))
  {
    if s != [] {
      DropSplits(s[1..], id);
      assert s == [s[0]] + s[1..];
    }
  }

  lemma AcceptedOne(closed: bool, op: Op, rest: seq<Op>)
    ensures multiset(Accepted(closed, [op] + rest))
         == PushedBy(closed, op) + multiset(Accepted(closed || op.Close?, rest))
  {
    assert ([op] + rest)[1..] == rest;
  }

  lemma DroppedOne(s: Spec, op: Op, rest: seq<Op>)
    ensures multiset(Dropped(s, [op] + rest)) == DroppedBy(s, op) + multiset(Dropped(Step(s, op).0, rest))
  {
    assert ([op] + rest)[1..] == rest;
  }

  function PushedBy(closed: bool, op: Op): multiset<Task> {
    if op.Push? && !closed then multiset{op.task} else multiset{}
  }

  function DroppedBy(s: Spec, op: Op): multiset<Task> {
    if op.Remove? then multiset(Matching(s.pending, op.id)) else multiset{}
  }

  /** Every task pushed before the close is handed out, dropped by a removal, or still there, exactly as often. */
  lemma {:induction false} NothingIsLost(s: Spec, ops: seq<Op>)
    ensures multiset(s.pending) + multiset(Accepted(s.closed, ops))
         == multiset(Handed(Outputs(s, ops))) + multiset(Dropped(s, ops)) + multiset(After(s, ops).pending)
    decreases |ops|
  {
    if ops != [] {
      var op, rest := ops[0], ops[1..];
      var (s', given) := Step(s, op);
      assert ops == [op] + rest;
      NothingIsLost(s', rest);
      StepConserves(s, op);
      HandedCons(given, Outputs(s', rest));
      AcceptedOne(s.closed, op, rest);
      DroppedOne(s, op, rest);
      AddUp(multiset(s.pending), PushedBy(s.closed, op), Part(given), DroppedBy(s, op), multiset(s'.pending),
            multiset(Accepted(s'.closed, rest)), multiset(Handed(Outputs(s', rest))),
            multiset(Dropped(s', rest)), multiset(After(s', rest).pending));
    }
  }

  /** What one step takes in and gives out, and what the rest of the run does. */
  lemma AddUp(before: multiset<Task>, pushed: multiset<Task>, given: multiset<Task>, dropped: multiset<Task>,
              between: multiset<Task>, pushes: multiset<Task>, gives: multiset<Task>, drops: multiset<Task>,
              after: multiset<Task>)
    requires before + pushed == given + dropped + between && between + pushes == gives + drops + after
    ensures before + (pushed + pushes) == (given + gives) + (dropped + drops) + after
  {
    assert before + (pushed + pushes) == (before + pushed) + pushes;
    assert (given + dropped + between) + pushes == (given + dropped) + (between + pushes);
  }

  lemma HandedCons(given: Option<Task>, out: seq<Option<Task>>)
    ensures multiset(Handed([given] + out)) == Part(given) + multiset(Handed(out))
  {
    assert ([given] + out)[1..] == out;
  }

  function Part(given: Option<Task>): multiset<Task> {
    if given.Some? then multiset{given.value} else multiset{}
  }

  lemma TakeConserves(s: Spec)
    ensures multiset(s.pending) == Part(TakeBest(s).1) + multiset(TakeBest(s).0.pending)
    ensures TakeBest(s).0.closed == s.closed
  {
    if s.pending != [] {
      RemovedMultiset(s.pending, Best(s.pending));
    }
  }

  lemma StepConserves(s: Spec, op: Op)
    ensures var (s', given) := Step(s, op);
      && s'.closed == (s.closed || op.Close?)
      && multiset(s.pending) + PushedBy(s.closed, op) == Part(given) + DroppedBy(s, op) + multiset(s'.pending)
  {
    match op {
      case Push(t) =>
      case Remove(id) => DropSplits(s.pending, id);
      case Close =>
      case _ => TakeConserves(s);
    }
  }

  // ----- Closing -----

  lemma {:induction false} ClosedTriesFail(s: Spec, ops: seq<Op>, j: nat)
    requires s.closed && j < |ops| && ops[j].TryPop?
    ensures |Outputs(s, ops)| == |ops| && Outputs(s, ops)[j] == None
    decreases |ops|
  {
    OneOutputEach(s, ops);
    if j > 0 {
      ClosedTriesFail(Step(s, ops[0]).0, ops[1..], j - 1);
    }
  }

  /** After a close, no try_pop gets a task. */
  lemma {:induction false} TriesFailAfterClose(s: Spec, ops: seq<Op>, i: nat, j: nat)
    requires i < j < |ops| && ops[i].Close? && ops[j].TryPop?
    ensures |Outputs(s, ops)| == |ops| && Outputs(s, ops)[j] == None
    decreases |ops|
  {
    OneOutputEach(s, ops);
    var s' := Step(s, ops[0]).0;
    if i == 0 {
      ClosedTriesFail(s', ops[1..], j - 1);
    } else {
      TriesFailAfterClose(s', ops[1..], i - 1, j - 1);
    }
  }

  function AsPops(ops: seq<Op>): seq<Op> {
    if ops == [] then [] else [if ops[0].TryPop? then Op.Pop else ops[0]] + AsPops(ops[1..])
  }

  /** While the queue is open, try_pop hands out what pop does. */
  lemma {:induction false} OpenTriesArePops(s: Spec, ops: seq<Op>)
    requires !s.closed && Op.Close !in ops
    ensures Outputs(s, ops) == Outputs(s, AsPops(ops)) && After(s, ops) == After(s, AsPops(ops))
    decreases |ops|
  {
    if ops != [] {
      var pops := AsPops(ops);
      assert pops[1..] == AsPops(ops[1..]);
      OpenTriesArePops(Step(s, ops[0]).0, ops[1..]);
    }
  }

  // ----- Removal -----

  ghost predicate Lacks(s: Spec, id: TaskId) {
    forall k :: 0 <= k < |s.pending| ==> s.pending[k].id != id
  }

  lemma {:induction false} DropLacks(s: seq<Task>, id: TaskId)
    ensures forall k :: 0 <= k < |Drop(s, id)| ==> Drop(s, id)[k].id != id && Drop(s, id)[k] in s
  {
    if s != [] {
      DropLacks(s[1..], id);
    }
  }

  lemma StepLacks(s: Spec, op: Op, id: TaskId)
    requires op == Op.Remove(id) || (Lacks(s, id) && !(op.Push? && op.task.id == id))
    ensures Lacks(Step(s, op).0, id) && (Step(s, op).1.Some? ==> Step(s, op).1.value.id != id)
  {
    if op.Remove? {
      DropLacks(s.pending, op.id);
      if op.id != id {
        assert forall t :: t in s.pending ==> t.id != id;
      }
    }
  }

  /** No push of this id from index i on. */
  ghost predicate NotPushed(ops: seq<Op>, id: TaskId, i: nat) {
    forall m :: i <= m < |ops| && ops[m].Push? ==> ops[m].task.id != id
  }

  lemma {:induction false} LackingIsNotHanded(s: Spec, ops: seq<Op>, j: nat, id: TaskId)
    requires Lacks(s, id) && NotPushed(ops, id, 0) && j < |ops|
    ensures |Outputs(s, ops)| == |ops| && (Outputs(s, ops)[j].Some? ==> Outputs(s, ops)[j].value.id != id)
    decreases |ops|
  {
    OneOutputEach(s, ops);
    StepLacks(s, ops[0], id);
    if j > 0 {
      LackingIsNotHanded(Step(s, ops[0]).0, ops[1..], j - 1, id);
    }
  }

  /** After a removal, no task with that id is handed out unless it is pushed again. */
  lemma {:induction false} RemovedIsNotHanded(s: Spec, ops: seq<Op>, i: nat, j: nat, id: TaskId)
    requires i < j < |ops| && ops[i] == Op.Remove(id) && NotPushed(ops, id, i)
    ensures |Outputs(s, ops)| == |ops| && (Outputs(s, ops)[j].Some? ==> Outputs(s, ops)[j].value.id != id)
    decreases |ops|
  {
    OneOutputEach(s, ops);
    var s' := Step(s, ops[0]).0;
    if i == 0 {
      StepLacks(s, ops[0], id);
      LackingIsNotHanded(s', ops[1..], j - 1, id);
    } else {
      RemovedIsNotHanded(s', ops[1..], i - 1, j - 1, id);
    }
  }
}
