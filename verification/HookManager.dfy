/** The table of lifecycle hooks (dxrk/plugin.py). */
module HookManager {
  // A hook id "hook-N" is its serial number N. The reference is the plain set of live
  // registrations; the table keeps it split by point, each list in running order.

  import opened Wrappers
  import opened Ordering
  import opened Sequences

  datatype Point = Point(name: string)

  /** A registered function, known by its number. */
  datatype Callback = Callback(number: nat)

  datatype Hook = Hook(id: nat, point: Point, priority: int, fn: Option<Callback>)

  datatype HookFailure = HookFailure(point: Point, id: nat, message: string)

  // ----- The order within a point -----

  /** Lower priority first, and registration order among equals. */
  ghost predicate RunsBefore(a: Hook, b: Hook) {
    a.priority < b.priority || (a.priority == b.priority && a.id < b.id)
  }

  ghost predicate RunOrder(s: seq<Hook>) {
    forall i, j :: 0 <= i < j < |s| ==> RunsBefore(s[i], s[j])
  }

  lemma FirstOfTwo(s: seq<Hook>, t: seq<Hook>)
    requires RunOrder(s) && RunOrder(t) && s != [] && t != [] && s[0] in t && t[0] in s
    ensures s[0] == t[0]
  {
    var i :| 0 <= i < |s| && s[i] == t[0];
    var j :| 0 <= j < |t| && t[j] == s[0];
    assert i > 0 ==> RunsBefore(s[0], s[i]);
    assert j > 0 ==> RunsBefore(t[0], t[j]);
  }

  lemma TailMember(s: seq<Hook>, h: Hook)
    requires RunOrder(s) && s != []
    ensures h in s[1..] <==> h in s && h != s[0]
  {
    if h in s && h != s[0] {
      var i :| 0 <= i < |s| && s[i] == h;
      assert s[1..][i - 1] == h;
    }
    if h in s[1..] {
      var i :| 0 <= i < |s[1..]| && s[1..][i] == h;
      assert RunsBefore(s[0], s[i + 1]);
    }
  }

  /** A list in running order is determined by the hooks in it. */
  lemma {:induction false} RunOrderIsDetermined(s: seq<Hook>, t: seq<Hook>)
    requires RunOrder(s) && RunOrder(t) && forall h :: h in s <==> h in t
    ensures s == t
  {
    assert s != [] ==> s[0] in t;
    assert t != [] ==> t[0] in s;
    if s != [] && t != [] {
      FirstOfTwo(s, t);
      forall h
        ensures h in s[1..] <==> h in t[1..]
      {
        TailMember(s, h);
        TailMember(t, h);
      }
      RunOrderIsDetermined(s[1..], t[1..]);
    }
  }

  // ----- The running order is the stable sort by priority -----

  predicate ByPriority(a: Hook, b: Hook) {
    a.priority < b.priority
  }

  lemma RunOrderCons(h: Hook, s: seq<Hook>)
    requires RunOrder(s) && forall x :: x in s ==> RunsBefore(h, x)
    ensures RunOrder([h] + s)
  {
    assert forall x :: x in s ==> RunsBefore(h, x);
  }

  lemma {:induction false} InsertKeepsRunOrder(s: seq<Hook>, h: Hook)
    requires RunOrder(s) && forall x :: x in s ==> h.id < x.id
    ensures RunOrder(Insert(ByPriority, h, s))
  {
    if s == [] {
    } else if ByPriority(s[0], h) {
      InsertKeepsRunOrder(s[1..], h);
      var r := Insert(ByPriority, h, s[1..]);
      forall x | x in r
        ensures RunsBefore(s[0], x)
      {
        assert x in multiset(r);
        assert x == h || x in s[1..];
      }
      RunOrderCons(s[0], r);
    } else {
      forall x | x in s
        ensures RunsBefore(h, x)
      {
        assert x == s[0] || RunsBefore(s[0], x);
      }
      RunOrderCons(h, s);
    }
  }

  ghost predicate InRegistrationOrder(s: seq<Hook>) {
    forall i, j :: 0 <= i < j < |s| ==> s[i].id < s[j].id
  }

  lemma {:induction false} StableSortIsRunOrder(s: seq<Hook>)
    requires InRegistrationOrder(s)
    ensures RunOrder(StableSort(ByPriority, s))
  {
    if s != [] {
      StableSortIsRunOrder(s[1..]);
      var r := StableSort(ByPriority, s[1..]);
      forall x | x in r
        ensures s[0].id < x.id
      {
        assert x in multiset(r);
        assert x in s[1..];
      }
      InsertKeepsRunOrder(r, s[0]);
    }
  }

  // ----- Running the hooks of a point -----

  /** call is the effect of a callback on the world for the event at hand; it may return an error. */
  function RunHooks<W>(call: (Callback, W) -> (W, Option<string>), point: Point, hooks: seq<Hook>, w: W)
    : (W, Option<HookFailure>)
  {
    if hooks == [] then (w, None)
    else if hooks[0].fn.None? then RunHooks(call, point, hooks[1..], w)
    else
      var (w1, err) := call(hooks[0].fn.value, w);
      if err.Some? then (w1, Some(HookFailure(point, hooks[0].id, err.value)))
      else RunHooks(call, point, hooks[1..], w1)
  }

  /** The answer of one hook; a hook without a function does nothing. */
  function Answer<W>(call: (Callback, W) -> (W, Option<string>), h: Hook, w: W): (W, Option<string>) {
    if h.fn.None? then (w, None) else call(h.fn.value, w)
  }

  /** The world after every one of the hooks has run, whatever they answered. */
  function AfterAll<W>(call: (Callback, W) -> (W, Option<string>), hooks: seq<Hook>, w: W): W {
    if hooks == [] then w else AfterAll(call, hooks[1..], Answer(call, hooks[0], w).0)
  }

  ghost predicate AnswersNothing<W(!new)>(call: (Callback, W) -> (W, Option<string>), hooks: seq<Hook>, k: nat, w: W)
    requires k < |hooks|
  {
    Answer(call, hooks[k], AfterAll(call, hooks[..k], w)).1 == None
  }

  lemma AfterFirst<W(!new)>(call: (Callback, W) -> (W, Option<string>), hooks: seq<Hook>, k: nat, w: W)
    requires 0 < k <= |hooks|
    ensures AfterAll(call, hooks[..k], w) == AfterAll(call, hooks[1..][..k - 1], Answer(call, hooks[0], w).0)
  {
    assert hooks[..k][1..] == hooks[1..][..k - 1];
  }

  /** Exactly the prefix up to and including the first failing hook has run. */
  lemma {:induction false} RunsToFirstError<W(!new)>(
      call: (Callback, W) -> (W, Option<string>), point: Point, hooks: seq<Hook>, w: W) returns (ran: nat)
    ensures ran <= |hooks|
    ensures RunHooks(call, point, hooks, w).0 == AfterAll(call, hooks[..ran], w)
    ensures RunHooks(call, point, hooks, w).1.None? ==>
              ran == |hooks| && forall k :: 0 <= k < ran ==> AnswersNothing(call, hooks, k, w)
    ensures var failure := RunHooks(call, point, hooks, w).1;
      failure.Some? ==>
        && ran > 0 && (forall k :: 0 <= k < ran - 1 ==> AnswersNothing(call, hooks, k, w))
        && var answer := Answer(call, hooks[ran - 1], AfterAll(call, hooks[..ran - 1], w)).1;
           answer.Some? && failure.value == HookFailure(point, hooks[ran - 1].id, answer.value)
  {
    if hooks == [] {
      return 0;
    }
    var (w1, err) := Answer(call, hooks[0], w);
    assert hooks[..0] == [] && hooks[..1] == [hooks[0]];
    if err.Some? {
      assert AfterAll(call, [hooks[0]], w) == AfterAll(call, [], w1);
      return 1;
    }
    var rest := RunsToFirstError(call, point, hooks[1..], w1);
    ran := rest + 1;
    AfterFirst(call, hooks, ran, w);
    assert AnswersNothing(call, hooks, 0, w);
    forall k | 0 <= k < ran && (k > 0 ==> AnswersNothing(call, hooks[1..], k - 1, w1))
      ensures AnswersNothing(call, hooks, k, w)
    {
      if k > 0 {
        AfterFirst(call, hooks, k, w);
      }
    }
    if rest > 0 {
      AfterFirst(call, hooks, rest, w);
    }
  }

  // ----- The table -----

  function ListAt(hooks: map<Point, seq<Hook>>, point: Point): seq<Hook> {
    if point in hooks then hooks[point] else []
  }

  /** The list of a point: exactly its live registrations, in running order. */
  ghost predicate ListOf(list: seq<Hook>, live: set<Hook>, point: Point) {
    RunOrder(list) && forall h :: h in list <==> h in live && h.point == point
  }

  /** Empty points are absent. */
  ghost predicate TableOf(hooks: map<Point, seq<Hook>>, live: set<Hook>) {
    forall p {:trigger ListAt(hooks, p)} :: ListOf(ListAt(hooks, p), live, p) && (p in hooks ==> hooks[p] != [])
  }

  /** No two live hooks share an id, and ids lie in 1..last. */
  ghost predicate UniqueIds(live: set<Hook>, last: nat) {
    && (forall h :: h in live ==> 1 <= h.id <= last)
    && (forall g, h :: g in live && h in live && g.id == h.id ==> g == h)
  }

  /** Each list is the stable sort by priority of the point's live hooks, taken in registration order. */
  lemma ListIsStableSort(hooks: map<Point, seq<Hook>>, live: set<Hook>, point: Point, registered: seq<Hook>)
    requires TableOf(hooks, live)
    requires InRegistrationOrder(registered)
    requires forall h :: h in registered <==> h in live && h.point == point
    ensures ListAt(hooks, point) == StableSort(ByPriority, registered)
  {
    var sorted := StableSort(ByPriority, registered);
    StableSortIsRunOrder(registered);
    assert ListOf(ListAt(hooks, point), live, point);
    forall h
      ensures h in sorted <==> h in ListAt(hooks, point)
    {
      assert h in sorted <==> h in multiset(sorted);
      assert h in registered <==> h in multiset(registered);
    }
    RunOrderIsDetermined(ListAt(hooks, point), sorted);
  }

  lemma InsertedList(list: seq<Hook>, live: set<Hook>, h: Hook, i: nat)
    requires ListOf(list, live, h.point) && (forall x :: x in live ==> x.id < h.id) && i <= |list|
    requires forall k :: 0 <= k < i ==> list[k].priority <= h.priority
    requires i < |list| ==> h.priority < list[i].priority
    ensures ListOf(list[..i] + [h] + list[i..], live + {h}, h.point)
  {
    var r := list[..i] + [h] + list[i..];
    forall j, k | 0 <= j < k < |r|
      ensures RunsBefore(r[j], r[k])
    {
      InsertedPair(list, live, h, i, j, k);
    }
    forall x
      ensures x in r <==> x in live + {h} && x.point == h.point
    {
      assert list == list[..i] + list[i..];
    }
  }

  lemma InsertedPair(list: seq<Hook>, live: set<Hook>, h: Hook, i: nat, j: nat, k: nat)
    requires ListOf(list, live, h.point) && (forall x :: x in live ==> x.id < h.id) && i <= |list|
    requires forall k :: 0 <= k < i ==> list[k].priority <= h.priority
    requires i < |list| ==> h.priority < list[i].priority
    requires j < k <= |list|
    ensures var r := list[..i] + [h] + list[i..]; RunsBefore(r[j], r[k])
  {
    var r := list[..i] + [h] + list[i..];
    assert r[j] == if j < i then list[j] else if j == i then h else list[j - 1];
    assert r[k] == if k < i then list[k] else if k == i then h else list[k - 1];
    if k == i {
      assert list[j] in list;
    } else if j == i {
      assert k - 1 > i ==> RunsBefore(list[i], list[k - 1]);
    }
  }

  lemma OtherList(list: seq<Hook>, live: set<Hook>, rest: set<Hook>, p: Point)
    requires ListOf(list, live, p) && forall h: Hook :: h.point == p ==> (h in live <==> h in rest)
    ensures ListOf(list, rest, p)
  {
  }

  lemma RegisterKeepsTable(hooks: map<Point, seq<Hook>>, live: set<Hook>, h: Hook, i: nat)
    requires TableOf(hooks, live) && (forall x :: x in live ==> x.id < h.id) && i <= |ListAt(hooks, h.point)|
    requires var list := ListAt(hooks, h.point);
      && (forall k :: 0 <= k < i ==> list[k].priority <= h.priority)
      && (i < |list| ==> h.priority < list[i].priority)
    ensures var list := ListAt(hooks, h.point);
      TableOf(hooks[h.point := list[..i] + [h] + list[i..]], live + {h})
  {
    var list := ListAt(hooks, h.point);
    var after := hooks[h.point := list[..i] + [h] + list[i..]];
    forall p
      ensures ListOf(ListAt(after, p), live + {h}, p) && (p in after ==> after[p] != [])
    {
      assert ListOf(ListAt(hooks, p), live, p);
      if p == h.point {
        InsertedList(list, live, h, i);
      } else {
        assert ListAt(after, p) == ListAt(hooks, p);
        OtherList(ListAt(hooks, p), live, live + {h}, p);
      }
    }
  }

  lemma CutMember(list: seq<Hook>, i: nat, h: Hook)
    requires RunOrder(list) && i < |list|
    ensures h in list[..i] + list[i + 1..] <==> h in list && h != list[i]
  {
    var r := list[..i] + list[i + 1..];
    if h in list && h != list[i] {
      var k :| 0 <= k < |list| && list[k] == h;
      assert r[if k < i then k else k - 1] == h;
    }
    if h in r {
      var k :| 0 <= k < |r| && r[k] == h;
      assert if k < i then RunsBefore(list[k], list[i]) else RunsBefore(list[i], list[k + 1]);
    }
  }

  lemma CutList(list: seq<Hook>, live: set<Hook>, p: Point, i: nat)
    requires ListOf(list, live, p) && i < |list|
    ensures ListOf(list[..i] + list[i + 1..], live - {list[i]}, p)
  {
    forall h
      ensures h in list[..i] + list[i + 1..] <==> h in live - {list[i]} && h.point == p
    {
      CutMember(list, i, h);
    }
  }

  /** The table after the list at a point was cut down. */
  function Replace(hooks: map<Point, seq<Hook>>, point: Point, remaining: seq<Hook>): map<Point, seq<Hook>> {
    if remaining != [] then hooks[point := remaining] else hooks - {point}
  }

  lemma RemoveKeepsTable(hooks: map<Point, seq<Hook>>, live: set<Hook>, p: Point, i: nat)
    requires TableOf(hooks, live) && p in hooks && i < |hooks[p]|
    ensures hooks[p][i] in live && hooks[p][i].point == p
    ensures TableOf(Replace(hooks, p, hooks[p][..i] + hooks[p][i + 1..]), live - {hooks[p][i]})
  {
    var list, gone := ListAt(hooks, p), hooks[p][i];
    assert ListOf(list, live, p) && gone in list;
    var after := Replace(hooks, p, list[..i] + list[i + 1..]);
    forall q
      ensures ListOf(ListAt(after, q), live - {gone}, q) && (q in after ==> after[q] != [])
    {
      assert ListOf(ListAt(hooks, q), live, q);
      if q == p {
        CutList(list, live, p, i);
      } else {
        assert ListAt(after, q) == ListAt(hooks, q);
        OtherList(ListAt(hooks, q), live, live - {gone}, q);
      }
    }
  }

  ghost predicate HasId(s: seq<Hook>, id: nat) {
    exists i :: 0 <= i < |s| && s[i].id == id
  }

  /** When no list holds the id, no live hook has it. */
  lemma NotFoundIsNotLive(hooks: map<Point, seq<Hook>>, live: set<Hook>, id: nat)
    requires TableOf(hooks, live) && forall p :: p in hooks ==> !HasId(hooks[p], id)
    ensures forall h :: h in live ==> h.id != id
  {
    forall h | h in live
      ensures h.id != id
    {
      assert ListOf(ListAt(hooks, h.point), live, h.point);
      var i :| 0 <= i < |hooks[h.point]| && hooks[h.point][i] == h;
    }
  }

  function WithoutId(live: set<Hook>, id: nat): set<Hook> {
    set h | h in live && h.id != id
  }

  // ----- Counting over the points -----

  function AtPoints(live: set<Hook>, points: set<Point>): set<Hook> {
    set h | h in live && h.point in points
  }

  lemma RunOrderIsDistinct(list: seq<Hook>)
    requires RunOrder(list)
    ensures |Elems(list)| == |list|
  {
    forall i, j | 0 <= i < j < |list|
      ensures list[i] != list[j]
    {
      assert RunsBefore(list[i], list[j]);
    }
    DistinctCardinality(list);
  }

  lemma ListSize(list: seq<Hook>, live: set<Hook>, p: Point)
    requires ListOf(list, live, p)
    ensures |list| == |AtPoints(live, {p})|
  {
    RunOrderIsDistinct(list);
    assert Elems(list) == AtPoints(live, {p});
  }

  lemma CountOnePoint(live: set<Hook>, points: set<Point>, p: Point)
    requires p in points
    ensures |AtPoints(live, points)| == |AtPoints(live, points - {p})| + |AtPoints(live, {p})|
  {
    assert AtPoints(live, points) == AtPoints(live, points - {p}) + AtPoints(live, {p});
    assert AtPoints(live, points - {p}) !! AtPoints(live, {p});
  }

  class Manager {
    var hooks: map<Point, seq<Hook>>
    var nextId: nat
    /** The live registrations. */
    ghost var live: set<Hook>

    ghost predicate Valid()
      reads this
    {
      UniqueIds(live, nextId) && TableOf(hooks, live)
    }

    constructor ()
      ensures Valid() && live == {} && nextId == 0
    {
      hooks, nextId, live := map[], 0, {};
    }

    /** The new id was never given out before, because ids count up. */
    method Register(point: Point, priority: int, fn: Callback) returns (id: nat)
      requires Valid()
      modifies this
      ensures Valid()
      ensures id == nextId == old(nextId) + 1
      ensures live == old(live) + {Hook(id, point, priority, Some(fn))}
    {
      nextId := nextId + 1;
      id := nextId;
      var registration := Hook(id, point, priority, Some(fn));
      var list := ListAt(hooks, point);
      var insertAt := |list|;
      for index := 0 to |list|
        invariant insertAt == |list|
        invariant forall k :: 0 <= k < index ==> list[k].priority <= priority
      {
        if priority < list[index].priority {
          insertAt := index;
          break;
        }
      }
      RegisterKeepsTable(hooks, live, registration, insertAt);
      hooks := hooks[point := list[..insertAt] + [registration] + list[insertAt..]];
      live := live + {registration};
    }

    /** Deletes the hook with this id wherever it stands, for every order of visiting the points. */
    method Remove(id: nat)
      requires Valid()
      modifies this`hooks, this`live
      ensures Valid()
      ensures live == WithoutId(old(live), id)
      ensures forall p :: (forall h :: h in old(live) && h.id == id ==> h.point != p)
                          ==> ListAt(hooks, p) == ListAt(old(hooks), p)
    {
      var points := hooks.Keys;
      while points != {}
        invariant points <= hooks.Keys && hooks == old(hooks) && live == old(live)
        invariant forall p :: p in hooks && p !in points ==> !HasId(hooks[p], id)
        decreases |points|
      {
        var point :| point in points;
        points := points - {point};
        var list := hooks[point];
        for index := 0 to |list|
          invariant forall k :: 0 <= k < index ==> list[k].id != id
        {
          if list[index].id == id {
            RemoveKeepsTable(hooks, live, point, index);
            hooks := Replace(hooks, point, list[..index] + list[index + 1..]);
            live := live - {list[index]};
            return;
          }
        }
      }
      NotFoundIsNotLive(hooks, live, id);
    }

    /** The list is copied first; the callbacks then act on the world one after another. */
    method Execute<W>(call: (Callback, W) -> (W, Option<string>), point: Point, world: W)
      returns (after: W, failure: Option<HookFailure>)
      requires Valid()
      ensures ListOf(ListAt(hooks, point), live, point)
      ensures var list := ListAt(hooks, point);
        forall i, j :: 0 <= i < j < |list| ==>
          list[i].priority < list[j].priority || (list[i].priority == list[j].priority && list[i].id < list[j].id)
      ensures (after, failure) == RunHooks(call, point, ListAt(hooks, point), world)
    {
      var list := ListAt(hooks, point);
      after := world;
      for i := 0 to |list|
        invariant RunHooks(call, point, list, world) == RunHooks(call, point, list[i..], after)
      {
        assert list[i..][0] == list[i] && list[i..][1..] == list[i + 1..];
        if list[i].fn.None? {
          continue;
        }
        var (w1, err) := call(list[i].fn.value, after);
        after := w1;
        if err.Some? {
          return after, Some(HookFailure(point, list[i].id, err.value));
        }
      }
      failure := None;
    }

    /** Ids are not reused after a clear. */
    method Clear()
      requires Valid()
      modifies this`hooks, this`live
      ensures Valid() && live == {}
    {
      hooks, live := map[], {};
    }

    method HookCount(point: Point) returns (n: nat)
      requires Valid()
      ensures n == |AtPoints(live, {point})|
    {
      ListSize(ListAt(hooks, point), live, point);
      n := |ListAt(hooks, point)|;
    }

    /** Adds up the lists, in any order of the points. */
    method TotalHooks() returns (n: nat)
      requires Valid()
      ensures n == |live|
    {
      var points := hooks.Keys;
      AllAtSomePoint(hooks, live);
      n := 0;
      while points != {}
        invariant points <= hooks.Keys && |live| == n + |AtPoints(live, points)|
        decreases |points|
      {
        var point :| point in points;
        CountOnePoint(live, points, point);
        ListSize(ListAt(hooks, point), live, point);
        n := n + |hooks[point]|;
        points := points - {point};
      }
      assert AtPoints(live, {}) == {};
    }
  }

  lemma AllAtSomePoint(hooks: map<Point, seq<Hook>>, live: set<Hook>)
    requires TableOf(hooks, live)
    ensures AtPoints(live, hooks.Keys) == live
  {
    forall h | h in live
      ensures h.point in hooks
    {
      assert ListOf(ListAt(hooks, h.point), live, h.point);
      assert h in ListAt(hooks, h.point);
    }
  }

  // ----- How many hooks there are after any run -----

  datatype Op = Register(point: Point, priority: int, fn: Callback) | Remove(id: nat) | Clear

  /** What a run leaves: the live registrations, the last id, and the balance since the last clear. */
  datatype Tally = Tally(live: set<Hook>, last: nat, registered: nat, removed: nat)

  ghost function Step(t: Tally, op: Op): Tally {
    match op
    case Register(point, priority, fn) =>
      Tally(t.live + {Hook(t.last + 1, point, priority, Some(fn))}, t.last + 1, t.registered + 1, t.removed)
    case Remove(id) =>
      Tally(WithoutId(t.live, id), t.last, t.registered,
            t.removed + if exists h :: h in t.live && h.id == id then 1 else 0)
    case Clear => Tally({}, t.last, 0, 0)
  }

  ghost function Run(ops: seq<Op>): Tally {
    if ops == [] then Tally({}, 0, 0, 0) else Step(Run(ops[..|ops| - 1]), ops[|ops| - 1])
  }

  /** Ids count the registrations ever made, across removals and clears. */
  lemma {:induction false} IdsCountRegistrations(ops: seq<Op>)
    ensures Run(ops).last == |Filter((op: Op) => op.Register?, ops)|
  {
    var isRegister := (op: Op) => op.Register?;
    FilterAgree(isRegister, (op: Op) => op.Register?, ops);
    if ops != [] {
      var init, last := ops[..|ops| - 1], ops[|ops| - 1];
      IdsCountRegistrations(init);
      FilterAgree(isRegister, (op: Op) => op.Register?, init);
      assert ops == init + [last];
      FilterAppend(isRegister, init, [last]);
      FilterOne(isRegister, last);
    }
  }

  /** Registering one hook after another numbers them from one. */
  lemma FirstRun(p: Point, a: int, b: int, f: Callback, g: Callback)
    ensures Run([Register(p, a, f), Register(p, b, g)]).live == {Hook(1, p, a, Some(f)), Hook(2, p, b, Some(g))}
  {
    var ops := [Register(p, a, f), Register(p, b, g)];
    assert ops[..1] == [Register(p, a, f)] && ops[..1][..0] == [];
    assert Run(ops[..1][..0]) == Tally({}, 0, 0, 0);
    assert Run(ops[..1]).live == {Hook(1, p, a, Some(f))};
  }

  lemma RemovedOne(live: set<Hook>, last: nat, h: Hook)
    requires UniqueIds(live, last) && h in live
    ensures |WithoutId(live, h.id)| == |live| - 1
  {
    assert WithoutId(live, h.id) == live - {h};
  }

  /** In every run ids stay unique, and the total is registrations minus effective removals. */
  lemma {:induction false} TotalIsBalance(ops: seq<Op>)
    ensures UniqueIds(Run(ops).live, Run(ops).last)
    ensures |Run(ops).live| == Run(ops).registered - Run(ops).removed
  {
    if ops != [] {
      TotalIsBalance(ops[..|ops| - 1]);
      var t, op := Run(ops[..|ops| - 1]), ops[|ops| - 1];
      if op.Register? {
        assert Hook(t.last + 1, op.point, op.priority, Some(op.fn)) !in t.live;
      } else if op.Remove? {
        if h :| h in t.live && h.id == op.id {
          RemovedOne(t.live, t.last, h);
        } else {
          assert WithoutId(t.live, op.id) == t.live;
        }
      }
    }
  }

  /** A new manager, driven through any list of operations, holds what the run leaves. */
  method Perform(ops: seq<Op>) returns (m: Manager)
    ensures fresh(m) && m.Valid()
    ensures m.live == Run(ops).live && m.nextId == Run(ops).last
  {
    m := new Manager();
    for i := 0 to |ops|
      invariant m.Valid() && fresh(m)
      invariant m.live == Run(ops[..i]).live && m.nextId == Run(ops[..i]).last
    {
      assert ops[..i + 1][..i] == ops[..i];
      match ops[i] {
        case Register(point, priority, fn) => var _ := m.Register(point, priority, fn);
        case Remove(id) => m.Remove(id);
        case Clear => m.Clear();
      }
    }
    assert ops[..|ops|] == ops;
  }
}
