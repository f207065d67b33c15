/** Kahn's algorithm with a sorted ready list (dxrk/planner.py). */
module TopologicalSort {
  // The result is specified without mentioning in-degrees: the sort fails exactly when the graph
  // has a cycle, and otherwise returns the lexicographically least of all orders that list every
  // node once, dependencies first.

  import opened Wrappers
  import opened Ordering

  /** A component id: a string enumeration, compared by its string value. */
  datatype Component = Component(value: string)

  type Edges = map<Component, seq<Component>>

  predicate Before(a: Component, b: Component) {
    Less(a.value, b.value)
  }

  lemma BeforeIsStrictWeak()
    ensures StrictWeakOrder(Before)
  {
    LessIsStrictWeak();
  }

  /** A Python dict: its iteration order and its contents. */
  datatype Dict = Dict(keys: seq<Component>, deps: Edges) {
    ghost predicate Valid() {
      Distinct(keys) && Elems(keys) == deps.Keys
    }
  }

  datatype SortError = DependencyCycle

  // ----- Graphs -----

  function DepsOf(g: Edges, n: Component): seq<Component> {
    if n in g then g[n] else []
  }

  predicate Edge(g: Edges, dep: Component, n: Component) {
    dep in DepsOf(g, n)
  }

  function Nodes(g: Edges): set<Component> {
    g.Keys + set c, d | c in g && d in g[c] :: d
  }

  ghost predicate IsCycle(g: Edges, p: seq<Component>) {
    && |p| >= 2
    && p[0] == p[|p| - 1]
    && forall i :: 0 <= i < |p| - 1 ==> Edge(g, p[i], p[i + 1])
  }

  ghost predicate HasCycle(g: Edges) {
    exists p :: IsCycle(g, p)
  }

  ghost predicate IsTopologicalOrder(g: Edges, s: seq<Component>) {
    && Distinct(s)
    && Elems(s) == Nodes(g)
    && forall i, j :: 0 <= i < |s| && 0 <= j < |s| && Edge(g, s[i], s[j]) ==> i < j
  }

  /** s comes first: it equals t, or the two part at an index where s is smaller. */
  ghost predicate LexLeq(s: seq<Component>, t: seq<Component>) {
    || s == t
    || exists k :: 0 <= k < |s| && k < |t| && s[..k] == t[..k] && Before(s[k], t[k])
  }

  ghost predicate LeastOrder(g: Edges, s: seq<Component>) {
    && IsTopologicalOrder(g, s)
    && forall t :: IsTopologicalOrder(g, t) ==> LexLeq(s, t)
  }

  // ----- What the loop keeps: every emitted node was the least ready one -----

  ghost predicate Ready(g: Edges, done: set<Component>, n: Component) {
    n in Nodes(g) && n !in done && forall d :: d in DepsOf(g, n) ==> d in done
  }

  ghost predicate LeastReady(g: Edges, done: set<Component>, n: Component) {
    Ready(g, done, n) && forall m :: Ready(g, done, m) && m != n ==> Before(n, m)
  }

  ghost predicate Greedy(g: Edges, s: seq<Component>) {
    forall i :: 0 <= i < |s| ==> LeastReady(g, Elems(s[..i]), s[i])
  }

  lemma GreedyAppend(g: Edges, s: seq<Component>, n: Component)
    requires Greedy(g, s) && LeastReady(g, Elems(s), n)
    ensures Greedy(g, s + [n])
  {
    var t := s + [n];
    forall i | 0 <= i < |t|
      ensures LeastReady(g, Elems(t[..i]), t[i])
    {
      if i < |s| {
        assert t[..i] == s[..i];
      } else {
        assert t[..i] == s;
      }
    }
  }

  lemma GreedyIsOrdered(g: Edges, s: seq<Component>)
    requires Greedy(g, s)
    ensures Distinct(s) && Elems(s) <= Nodes(g)
    ensures forall i, j :: 0 <= i < |s| && 0 <= j < |s| && Edge(g, s[i], s[j]) ==> i < j
  {
    forall i, j | 0 <= i < j < |s|
      ensures s[i] != s[j]
    {
      assert LeastReady(g, Elems(s[..j]), s[j]);
      assert s[i] in s[..j];
    }
    forall i, j | 0 <= i < |s| && 0 <= j < |s| && Edge(g, s[i], s[j])
      ensures i < j
    {
      assert LeastReady(g, Elems(s[..j]), s[j]);
      assert s[i] in Elems(s[..j]);
      var k :| 0 <= k < j && s[k] == s[i];
    }
    forall n | n in Elems(s)
      ensures n in Nodes(g)
    {
      var i :| 0 <= i < |s| && s[i] == n;
      assert LeastReady(g, Elems(s[..i]), s[i]);
    }
  }

  /** Completeness: no node of a cycle is ever emitted. */
  lemma {:induction false} CycleIsNeverEmitted(g: Edges, s: seq<Component>, p: seq<Component>, i: nat)
    requires Greedy(g, s) && IsCycle(g, p) && i <= |s|
    ensures forall k :: 0 <= k < |p| ==> p[k] !in s[..i]
  {
    if i > 0 {
      CycleIsNeverEmitted(g, s, p, i - 1);
      forall k | 0 <= k < |p|
        ensures p[k] !in s[..i]
      {
        var before := if k > 0 then k - 1 else |p| - 2;
        assert Edge(g, p[before], p[before + 1]) && p[before + 1] == p[k];
        assert p[before] !in Elems(s[..i - 1]);
        assert LeastReady(g, Elems(s[..i - 1]), s[i - 1]);
        assert s[..i] == s[..i - 1] + [s[i - 1]];
      }
    }
  }

  lemma CycleIsMissed(g: Edges, s: seq<Component>, p: seq<Component>)
    requires Greedy(g, s) && IsCycle(g, p)
    ensures p[0] in Nodes(g) && p[0] !in Elems(s)
  {
    CycleIsNeverEmitted(g, s, p, |s|);
    assert s[..|s|] == s;
    assert Edge(g, p[0], p[1]);
  }

  /** Soundness: following unfinished dependencies backwards must repeat a node. */
  ghost predicate HasDependencyIn(g: Edges, left: set<Component>, n: Component) {
    exists d :: d in left && Edge(g, d, n)
  }

  lemma ClosedWalk(g: Edges, walk: seq<Component>, d: Component)
    requires |walk| > 0 && Edge(g, d, walk[0]) && d in walk
    requires forall i :: 0 <= i < |walk| - 1 ==> Edge(g, walk[i], walk[i + 1])
    ensures HasCycle(g)
  {
    var k :| 0 <= k < |walk| && walk[k] == d;
    var p := [d] + walk[..k + 1];
    forall i | 0 <= i < |p| - 1
      ensures Edge(g, p[i], p[i + 1])
    {
      if i > 0 {
        assert Edge(g, walk[i - 1], walk[i]);
      }
    }
    assert IsCycle(g, p);
  }

  lemma LongerWalk(g: Edges, walk: seq<Component>, d: Component)
    requires |walk| > 0 && Edge(g, d, walk[0]) && d !in walk && Distinct(walk)
    requires forall i :: 0 <= i < |walk| - 1 ==> Edge(g, walk[i], walk[i + 1])
    ensures var longer := [d] + walk;
            Distinct(longer) && Elems(longer) == Elems(walk) + {d}
            && forall i :: 0 <= i < |longer| - 1 ==> Edge(g, longer[i], longer[i + 1])
  {
    var longer := [d] + walk;
    forall i | 0 <= i < |longer| - 1
      ensures Edge(g, longer[i], longer[i + 1])
    {
      if i > 0 {
        assert Edge(g, walk[i - 1], walk[i]);
      }
    }
    assert forall x :: x in longer <==> x == d || x in walk;
  }

  lemma {:induction false} WalkBack(g: Edges, left: set<Component>, walk: seq<Component>)
    requires |walk| > 0 && Distinct(walk) && Elems(walk) <= left
    requires forall i :: 0 <= i < |walk| - 1 ==> Edge(g, walk[i], walk[i + 1])
    requires forall n {:trigger HasDependencyIn(g, left, n)} :: n in left ==> HasDependencyIn(g, left, n)
    ensures HasCycle(g)
    decreases |left| - |walk|
  {
    assert walk[0] in Elems(walk);
    assert HasDependencyIn(g, left, walk[0]);
    var d :| d in left && Edge(g, d, walk[0]);
    if d in walk {
      ClosedWalk(g, walk, d);
    } else {
      var longer := [d] + walk;
      LongerWalk(g, walk, d);
      DistinctCardinality(longer);
      SubsetCardinality(Elems(longer), left);
      WalkBack(g, left, longer);
    }
  }

  lemma SubsetCardinality<T>(a: set<T>, b: set<T>)
    requires a <= b
    ensures |a| <= |b|
    ensures |a| == |b| ==> a == b
  {
    assert b == a + (b - a);
  }

  lemma StuckMeansCycle(g: Edges, s: seq<Component>)
    requires Greedy(g, s) && Elems(s) != Nodes(g)
    requires forall n :: !Ready(g, Elems(s), n)
    ensures HasCycle(g)
  {
    GreedyIsOrdered(g, s);
    var left := Nodes(g) - Elems(s);
    var first :| first in Nodes(g) && first !in Elems(s);
    forall n | n in left
      ensures HasDependencyIn(g, left, n)
    {
      assert !Ready(g, Elems(s), n);
      var d :| d in DepsOf(g, n) && d !in Elems(s);
      assert Edge(g, d, n) && d in left;
    }
    WalkBack(g, left, [first]);
  }

  lemma GreedyIsLeast(g: Edges, s: seq<Component>, t: seq<Component>)
    requires Greedy(g, s) && IsTopologicalOrder(g, s) && IsTopologicalOrder(g, t)
    ensures LexLeq(s, t)
  {
    DistinctCardinality(s);
    DistinctCardinality(t);
    if s != t {
      var k :| 0 <= k < |s| && s[k] != t[k];
      FirstDifference(g, s, t, k);
    }
  }

  lemma {:induction false} FirstDifference(g: Edges, s: seq<Component>, t: seq<Component>, k: nat)
    requires Greedy(g, s) && IsTopologicalOrder(g, t) && |s| == |t|
    requires k < |s| && s[k] != t[k]
    ensures LexLeq(s, t)
  {
    if j :| 0 <= j < k && s[j] != t[j] {
      FirstDifference(g, s, t, j);
    } else {
      assert s[..k] == t[..k];
      assert LeastReady(g, Elems(s[..k]), s[k]);
      assert t[k] in Elems(t);
      forall d | d in DepsOf(g, t[k])
        ensures d in Elems(s[..k])
      {
        assert Edge(g, d, t[k]);
        assert d in Nodes(g);
        var i :| 0 <= i < |t| && t[i] == d;
        assert t[i] == t[..k][i];
      }
      assert t[k] !in t[..k];
      assert Ready(g, Elems(s[..k]), t[k]);
    }
  }

  /**
   The result depends on the nodes and the edge relation only: not on the
   iteration order of the dict, the order inside a dependency list, or repeats.
   */
  lemma LeastOrderIsDetermined(g: Edges, h: Edges, s: seq<Component>, t: seq<Component>)
    requires Nodes(g) == Nodes(h)
    requires forall d, n :: Edge(g, d, n) <==> Edge(h, d, n)
    requires LeastOrder(g, s) && LeastOrder(h, t)
    ensures s == t
  {
    assert IsTopologicalOrder(g, t);
    assert IsTopologicalOrder(h, s);
    if s != t {
      var k :| 0 <= k < |s| && k < |t| && s[..k] == t[..k] && Before(s[k], t[k]);
      var j :| 0 <= j < |s| && j < |t| && t[..j] == s[..j] && Before(t[j], s[j]);
      if k < j {
        assert t[..j][k] == s[..j][k];
      } else if j < k {
        assert t[..k][j] == s[..k][j];
      }
      LessIsAsymmetric(s[k].value, t[k].value);
      LessIsIrreflexive(s[k].value);
      LessIsIrreflexive(s[j].value);
    }
  }

  // ----- In-degrees -----

  /** The in-degree table counts the dependencies that are not done yet. */
  ghost predicate Degrees(g: Edges, inDegree: map<Component, int>, done: set<Component>) {
    && inDegree.Keys == Nodes(g)
    && forall n :: n in inDegree ==> inDegree[n] == Remaining(g, n, done)
  }

  function Remaining(g: Edges, n: Component, done: set<Component>): nat {
    Undone(DepsOf(g, n), done)
  }

  /** How many entries of a dependency list are not done yet. */
  function Undone(ds: seq<Component>, done: set<Component>): nat {
    if ds == [] then 0
    else (if ds[0] in done then 0 else 1) + Undone(ds[1..], done)
  }

  lemma {:induction false} UndoneInitially(ds: seq<Component>)
    ensures Undone(ds, {}) == |ds|
  {
    if ds != [] {
      UndoneInitially(ds[1..]);
    }
  }

  lemma {:induction false} UndoneZero(ds: seq<Component>, done: set<Component>)
    ensures Undone(ds, done) == 0 <==> forall d :: d in ds ==> d in done
  {
    if ds != [] {
      UndoneZero(ds[1..], done);
      assert forall d :: d in ds <==> d == ds[0] || d in ds[1..];
    }
  }

  lemma {:induction false} UndoneAfter(ds: seq<Component>, done: set<Component>, n: Component)
    requires n !in done
    ensures Undone(ds, done + {n}) == Undone(ds, done) - multiset(ds)[n]
  {
    if ds != [] {
      UndoneAfter(ds[1..], done, n);
      assert ds == [ds[0]] + ds[1..];
    }
  }

  function Children(children: Edges, n: Component): seq<Component> {
    if n in children then children[n] else []
  }

  lemma TakeNext<T>(s: seq<T>, i: nat)
    requires i < |s|
    ensures s[..i + 1] == s[..i] + [s[i]]
    ensures Elems(s[..i + 1]) == Elems(s[..i]) + {s[i]}
  {
    assert forall x :: x in s[..i + 1] <==> x in s[..i] || x == s[i];
  }

  lemma FreshKey<T>(s: seq<T>, i: nat)
    requires i < |s| && Distinct(s)
    ensures s[i] in Elems(s) && s[i] !in Elems(s[..i])
  {
  }

  /** The three tables agree with the dependency lists g. */
  ghost predicate Tables(g: Edges, inDegree: map<Component, int>, children: Edges, nodes: set<Component>) {
    && nodes == Nodes(g)
    && inDegree.Keys == nodes
    && (forall n :: n in nodes ==> inDegree[n] == |DepsOf(g, n)|)
    && Mirrored(g, children)
  }

  function Count(s: seq<Component>, x: Component): nat {
    if s == [] then 0 else (if s[|s| - 1] == x then 1 else 0) + Count(s[..|s| - 1], x)
  }

  lemma CountAppend(s: seq<Component>, y: Component, x: Component)
    ensures Count(s + [y], x) == Count(s, x) + if x == y then 1 else 0
  {
    assert (s + [y])[..|s|] == s;
  }

  lemma {:induction false} CountPrefix(s: seq<Component>, k: nat, x: Component)
    requires k < |s|
    ensures Count(s[..k], x) + (if s[k] == x then 1 else 0) == Count(s[..k + 1], x) <= Count(s, x)
  {
    assert s[..k + 1][..k] == s[..k];
    if k + 1 < |s| {
      CountPrefix(s[..|s| - 1], k, x);
      assert s[..|s| - 1][..k] == s[..k] && s[..|s| - 1][..k + 1] == s[..k + 1];
    } else {
      assert s[..k + 1] == s;
    }
  }

  lemma {:induction false} CountIsMultiplicity(s: seq<Component>, x: Component)
    ensures Count(s, x) == multiset(s)[x]
  {
    if s != [] {
      CountIsMultiplicity(s[..|s| - 1], x);
      assert s == s[..|s| - 1] + [s[|s| - 1]];
    }
  }

  /** c is listed as a child of d as often as d is listed as a dependency of c. */
  ghost predicate Mirrored(g: Edges, children: Edges) {
    forall d, c :: Listings(children, d, c) == Needs(g, c, d)
  }

  function Listings(children: Edges, d: Component, c: Component): nat {
    Count(Children(children, d), c)
  }

  function Needs(g: Edges, c: Component, d: Component): nat {
    Count(DepsOf(g, c), d)
  }

  lemma NodesWithDependency(g: Edges, c: Component, dep: Component)
    requires c in g
    ensures Nodes(g[c := g[c] + [dep]]) == Nodes(g) + {dep}
  {
    var g' := g[c := g[c] + [dep]];
    forall n
      ensures n in Nodes(g') <==> n in Nodes(g) + {dep}
    {
      if n in Nodes(g') && n !in g' {
        var k :| k in g' && n in g'[k];
        assert k in g && (n in g[k] || n == dep);
      }
      if n in Nodes(g) && n !in g {
        var k :| k in g && n in g[k];
        assert k in g' && n in g'[k];
      }
      assert dep in g'[c];
    }
  }

  lemma MirroredWithDependency(g: Edges, children: Edges, c: Component, dep: Component)
    requires c in g && Mirrored(g, children)
    ensures Mirrored(g[c := g[c] + [dep]], children[dep := Children(children, dep) + [c]])
  {
    var g', children' := g[c := g[c] + [dep]], children[dep := Children(children, dep) + [c]];
    forall d, x
      ensures Listings(children', d, x) == Needs(g', x, d)
    {
      assert Listings(children, d, x) == Needs(g, x, d);
      CountAppend(Children(children, dep), c, x);
      CountAppend(g[c], dep, d);
    }
  }

  lemma AddDependency(g: Edges, inDegree: map<Component, int>, children: Edges, nodes: set<Component>,
                      c: Component, dep: Component)
    requires Tables(g, inDegree, children, nodes) && c in g
    ensures var g' := g[c := g[c] + [dep]];
            var counted := inDegree[c := inDegree[c] + 1];
            Tables(g', if dep in counted then counted else counted[dep := 0],
                   children[dep := Children(children, dep) + [c]], nodes + {dep})
  {
    NodesWithDependency(g, c, dep);
    MirroredWithDependency(g, children, c, dep);
  }

  lemma AddComponent(g: Edges, inDegree: map<Component, int>, children: Edges, nodes: set<Component>, c: Component)
    requires Tables(g, inDegree, children, nodes) && c !in g
    ensures Tables(g[c := []], if c in inDegree then inDegree else inDegree[c := 0], children, nodes + {c})
  {
    var g' := g[c := []];
    forall n
      ensures n in Nodes(g') <==> n in Nodes(g) + {c}
    {
      if n in Nodes(g) && n !in g {
        var k :| k in g && n in g[k];
        assert k in g' && n in g'[k];
      }
    }
    forall d, x
      ensures Listings(children, d, x) == Needs(g', x, d)
    {
      assert Listings(children, d, x) == Needs(g, x, d);
      assert DepsOf(g', x) == DepsOf(g, x);
    }
  }

  lemma ExtendEntry(g: Edges, c: Component, deps: seq<Component>, j: nat)
    requires j < |deps|
    ensures g[c := deps[..j]][c := deps[..j] + [deps[j]]] == g[c := deps[..j + 1]]
  {
    TakeNext(deps, j);
  }

  /** The inner loop: records every dependency of one component. */
  method RecordDependencies(ghost g: Edges, component: Component, deps: seq<Component>,
                            inDegree0: map<Component, int>, children0: Edges, nodes0: set<Component>)
    returns (inDegree: map<Component, int>, children: Edges, nodes: set<Component>)
    requires Tables(g[component := []], inDegree0, children0, nodes0)
    ensures Tables(g[component := deps], inDegree, children, nodes)
  {
    inDegree, children, nodes := inDegree0, children0, nodes0;
    for j := 0 to |deps|
      invariant Tables(g[component := deps[..j]], inDegree, children, nodes)
    {
      var dep := deps[j];
      AddDependency(g[component := deps[..j]], inDegree, children, nodes, component, dep);
      ExtendEntry(g, component, deps, j);
      nodes := nodes + {dep};
      inDegree := inDegree[component := inDegree[component] + 1];
      children := children[dep := Children(children, dep) + [component]];
      if dep !in inDegree {
        inDegree := inDegree[dep := 0];
      }
    }
    assert deps[..|deps|] == deps;
  }

  /** The entries of the first i keys. */
  function FirstEntries(g: Dict, i: nat): Edges
    requires g.Valid() && i <= |g.keys|
  {
    map c | c in Elems(g.keys[..i]) :: g.deps[c]
  }

  lemma NextEntry(g: Dict, i: nat)
    requires g.Valid() && i < |g.keys|
    ensures g.keys[i] in g.deps && g.keys[i] !in FirstEntries(g, i)
    ensures FirstEntries(g, i + 1) == FirstEntries(g, i)[g.keys[i] := g.deps[g.keys[i]]]
  {
    FreshKey(g.keys, i);
    TakeNext(g.keys, i);
  }

  lemma AllEntries(g: Dict)
    requires g.Valid()
    ensures FirstEntries(g, |g.keys|) == g.deps
  {
    assert g.keys[..|g.keys|] == g.keys;
  }

  method BuildTables(g: Dict) returns (inDegree: map<Component, int>, children: Edges, nodes: set<Component>)
    requires g.Valid()
    ensures Tables(g.deps, inDegree, children, nodes)
  {
    inDegree, children, nodes := map[], map[], {};
    for i := 0 to |g.keys|
      invariant Tables(FirstEntries(g, i), inDegree, children, nodes)
    {
      NextEntry(g, i);
      var component := g.keys[i];
      AddComponent(FirstEntries(g, i), inDegree, children, nodes, component);
      nodes := nodes + {component};
      if component !in inDegree {
        inDegree := inDegree[component := 0];
      }
      inDegree, children, nodes :=
        RecordDependencies(FirstEntries(g, i), component, g.deps[component], inDegree, children, nodes);
    }
    AllEntries(g);
  }

  // ----- The ready queue -----

  ghost predicate QueueHolds(queue: seq<Component>, ready: set<Component>) {
    Distinct(queue) && Sorted(Before, queue) && Elems(queue) == ready
  }

  method SortedList(s: set<Component>) returns (queue: seq<Component>)
    ensures QueueHolds(queue, s)
  {
    var rest, list := s, [];
    while rest != {}
      invariant Distinct(list) && Elems(list) + rest == s && Elems(list) !! rest
    {
      var x :| x in rest;
      assert x !in list;
      rest, list := rest - {x}, list + [x];
    }
    queue := StableSort(Before, list);
    BeforeIsStrictWeak();
    StableSortSorts(Before, list);
    DistinctFromMultiset(list, queue);
  }

  function Resort(queue: seq<Component>, n: Component): seq<Component> {
    StableSort(Before, queue + [n])
  }

  lemma ResortHolds(queue: seq<Component>, ready: set<Component>, n: Component)
    requires QueueHolds(queue, ready) && n !in ready
    ensures QueueHolds(Resort(queue, n), ready + {n})
  {
    assert n !in queue;
    BeforeIsStrictWeak();
    StableSortSorts(Before, queue + [n]);
    DistinctFromMultiset(queue + [n], Resort(queue, n));
    assert Elems(queue + [n]) == ready + {n};
  }

  lemma HeadIsLeast(queue: seq<Component>, ready: set<Component>)
    requires QueueHolds(queue, ready) && queue != []
    ensures queue[0] in ready && forall m :: m in ready && m != queue[0] ==> Before(queue[0], m)
    ensures QueueHolds(queue[1..], ready - {queue[0]})
  {
    forall m | m in ready && m != queue[0]
      ensures Before(queue[0], m)
    {
      var i :| 0 <= i < |queue| && queue[i] == m;
      LessIsTotal(queue[0].value, m.value);
    }
    assert queue[0] in Elems(queue);
    assert forall x :: x in queue[1..] ==> x in queue;
    assert forall x :: x in queue && x != queue[0] ==> x in queue[1..];
  }

  /** Nodes not emitted yet whose count has reached zero. */
  function ZeroNodes(inDegree: map<Component, int>, done: set<Component>): set<Component> {
    set n | n in inDegree && n !in done && inDegree[n] == 0
  }

  /** node has just been emitted, and k of the sorted entries for it are counted off. */
  ghost predicate Releasing(g: Edges, inDegree: map<Component, int>, node: Component,
                            done: set<Component>, kids: seq<Component>) {
    && inDegree.Keys == Nodes(g)
    && forall n :: n in inDegree ==> inDegree[n] == Remaining(g, n, done) - Count(kids, n)
  }

  lemma ReleasedAll(g: Edges, node: Component, done: set<Component>, kids: seq<Component>, n: Component)
    requires node !in done && Count(kids, n) == Needs(g, n, node)
    ensures Remaining(g, n, done + {node}) == Remaining(g, n, done) - Count(kids, n)
  {
    UndoneAfter(DepsOf(g, n), done, node);
    CountIsMultiplicity(DepsOf(g, n), node);
  }

  lemma SortedCounts(kids: seq<Component>)
    ensures forall n :: Count(StableSort(Before, kids), n) == Count(kids, n)
  {
    forall n
      ensures Count(StableSort(Before, kids), n) == Count(kids, n)
    {
      CountIsMultiplicity(StableSort(Before, kids), n);
      CountIsMultiplicity(kids, n);
    }
  }

  lemma NeedsOnlyNodes(g: Edges, c: Component, d: Component)
    requires Needs(g, c, d) > 0
    ensures c in Nodes(g)
  {
  }

  lemma QueueAfterDecrement(inDegree: map<Component, int>, done: set<Component>, queue: seq<Component>, c: Component)
    requires c in inDegree && inDegree[c] > 0 && c !in done
    requires QueueHolds(queue, ZeroNodes(inDegree, done))
    ensures QueueHolds(if inDegree[c] == 1 then Resort(queue, c) else queue,
                       ZeroNodes(inDegree[c := inDegree[c] - 1], done))
  {
    var zero := ZeroNodes(inDegree, done);
    assert ZeroNodes(inDegree[c := inDegree[c] - 1], done) == zero + (if inDegree[c] == 1 then {c} else {});
    if inDegree[c] == 1 {
      ResortHolds(queue, zero, c);
    } else {
      assert zero + {} == zero;
    }
  }

  lemma CanCountOff(g: Edges, inDegree: map<Component, int>, node: Component, done: set<Component>,
                    kids: seq<Component>, k: nat)
    requires k < |kids| && node !in done && Releasing(g, inDegree, node, done, kids[..k])
    requires forall n :: n in done + {node} ==> Remaining(g, n, done) == 0
    requires Count(kids, kids[k]) == Needs(g, kids[k], node)
    ensures kids[k] in inDegree && inDegree[kids[k]] > 0 && kids[k] !in done + {node}
  {
    CountPrefix(kids, k, kids[k]);
    NeedsOnlyNodes(g, kids[k], node);
    ReleasedAll(g, node, done, kids, kids[k]);
  }

  lemma CountOff(g: Edges, inDegree: map<Component, int>, node: Component, done: set<Component>,
                 kids: seq<Component>, k: nat)
    requires k < |kids| && Releasing(g, inDegree, node, done, kids[..k]) && kids[k] in inDegree
    ensures Releasing(g, inDegree[kids[k] := inDegree[kids[k]] - 1], node, done, kids[..k + 1])
  {
    var counted := inDegree[kids[k] := inDegree[kids[k]] - 1];
    forall n | n in counted
      ensures counted[n] == Remaining(g, n, done) - Count(kids[..k + 1], n)
    {
      CountPrefix(kids, k, n);
    }
  }

  lemma ReleasingDone(g: Edges, inDegree: map<Component, int>, node: Component, done: set<Component>,
                      kids: seq<Component>)
    requires node !in done && Releasing(g, inDegree, node, done, kids)
    requires forall c :: Count(kids, c) == Needs(g, c, node)
    ensures Degrees(g, inDegree, done + {node})
  {
    forall n {
      ReleasedAll(g, node, done, kids, n);
    }
  }

  /** The `for child in sorted(children)` loop: node has just been emitted. */
  method ReleaseChildren(ghost g: Edges, kids: seq<Component>, node: Component, ghost done: set<Component>,
                         degree: map<Component, int>, ready: seq<Component>)
    returns (inDegree: map<Component, int>, queue: seq<Component>)
    requires node !in done && Degrees(g, degree, done)
    requires forall n :: n in done + {node} ==> Remaining(g, n, done) == 0
    requires forall c :: Count(kids, c) == Needs(g, c, node)
    requires QueueHolds(ready, ZeroNodes(degree, done + {node}))
    ensures Degrees(g, inDegree, done + {node})
    ensures QueueHolds(queue, ZeroNodes(inDegree, done + {node}))
  {
    inDegree, queue := degree, ready;
    var sorted := StableSort(Before, kids);
    SortedCounts(kids);
    for k := 0 to |sorted|
      invariant Releasing(g, inDegree, node, done, sorted[..k])
      invariant QueueHolds(queue, ZeroNodes(inDegree, done + {node}))
    {
      var child := sorted[k];
      CanCountOff(g, inDegree, node, done, sorted, k);
      CountOff(g, inDegree, node, done, sorted, k);
      QueueAfterDecrement(inDegree, done + {node}, queue, child);
      inDegree := inDegree[child := inDegree[child] - 1];
      if inDegree[child] == 0 {
        queue := Resort(queue, child);
      }
    }
    assert sorted[..|sorted|] == sorted;
    ReleasingDone(g, inDegree, node, done, sorted);
  }

  lemma ReadyIsZero(g: Edges, inDegree: map<Component, int>, done: set<Component>)
    requires Degrees(g, inDegree, done)
    ensures forall n :: Ready(g, done, n) <==> n in ZeroNodes(inDegree, done)
  {
    forall n
      ensures Ready(g, done, n) <==> n in ZeroNodes(inDegree, done)
    {
      UndoneZero(DepsOf(g, n), done);
    }
  }

  lemma DoneStaysZero(g: Edges, s: seq<Component>)
    requires Greedy(g, s)
    ensures forall n :: n in Elems(s) ==> Remaining(g, n, Elems(s)) == 0
  {
    forall n | n in Elems(s)
      ensures Remaining(g, n, Elems(s)) == 0
    {
      var i :| 0 <= i < |s| && s[i] == n;
      assert LeastReady(g, Elems(s[..i]), s[i]);
      assert Elems(s[..i]) <= Elems(s);
      UndoneZero(DepsOf(g, n), Elems(s));
    }
  }

  lemma TablesStart(g: Edges, inDegree: map<Component, int>, children: Edges, nodes: set<Component>)
    requires Tables(g, inDegree, children, nodes)
    ensures Degrees(g, inDegree, {})
    ensures ZeroNodes(inDegree, {}) == set n | n in nodes && inDegree[n] == 0
  {
    forall n {
      UndoneInitially(DepsOf(g, n));
    }
  }

  /** Taking the head of the queue emits the least ready node. */
  lemma HeadCanBeEmitted(g: Edges, inDegree: map<Component, int>, ordered: seq<Component>, queue: seq<Component>)
    requires Greedy(g, ordered) && Degrees(g, inDegree, Elems(ordered)) && queue != []
    requires QueueHolds(queue, ZeroNodes(inDegree, Elems(ordered)))
    ensures queue[0] !in Elems(ordered) && queue[0] in Nodes(g)
    ensures Greedy(g, ordered + [queue[0]])
    ensures Elems(ordered + [queue[0]]) == Elems(ordered) + {queue[0]}
    ensures forall n :: n in Elems(ordered) + {queue[0]} ==> Remaining(g, n, Elems(ordered)) == 0
    ensures QueueHolds(queue[1..], ZeroNodes(inDegree, Elems(ordered) + {queue[0]}))
  {
    var done, node := Elems(ordered), queue[0];
    HeadIsLeast(queue, ZeroNodes(inDegree, done));
    ReadyIsZero(g, inDegree, done);
    DoneStaysZero(g, ordered);
    GreedyAppend(g, ordered, node);
    assert ZeroNodes(inDegree, done + {node}) == ZeroNodes(inDegree, done) - {node};
    assert forall x :: x in ordered + [node] <==> x in ordered || x == node;
  }

  lemma FinishedIsLeast(g: Edges, s: seq<Component>)
    requires Greedy(g, s) && |s| == |Nodes(g)|
    ensures !HasCycle(g) && LeastOrder(g, s)
  {
    GreedyIsOrdered(g, s);
    DistinctCardinality(s);
    SubsetCardinality(Elems(s), Nodes(g));
    if p :| IsCycle(g, p) {
      CycleIsMissed(g, s, p);
      assert false;
    }
    forall t | IsTopologicalOrder(g, t)
      ensures LexLeq(s, t)
    {
      GreedyIsLeast(g, s, t);
    }
  }

  /** Where an element stood before those at i and i + 1 were exchanged. */
  function Origin(i: nat, k: nat): nat {
    if k == i then i + 1 else if k == i + 1 then i else k
  }

  /** Exchanges the elements at i and i + 1. */
  function Exchanged(s: seq<Component>, i: nat): (t: seq<Component>)
    requires i + 1 < |s|
    ensures |t| == |s| && forall k :: 0 <= k < |t| ==> t[k] == s[Origin(i, k)]
  {
    s[i := s[i + 1]][i + 1 := s[i]]
  }

  lemma ExchangeKeepsDistinct(s: seq<Component>, i: nat)
    requires Distinct(s) && i + 1 < |s|
    ensures Distinct(Exchanged(s, i))
  {
    var t := Exchanged(s, i);
    forall j, k | 0 <= j < k < |t|
      ensures t[j] != t[k]
    {
      assert t[j] == s[Origin(i, j)] && t[k] == s[Origin(i, k)];
    }
  }

  lemma ExchangeKeepsElements(s: seq<Component>, i: nat)
    requires i + 1 < |s|
    ensures Elems(Exchanged(s, i)) == Elems(s)
  {
    var t := Exchanged(s, i);
    forall x | x in s
      ensures x in t
    {
      var k :| 0 <= k < |s| && s[k] == x;
      assert t[Origin(i, k)] == x;
    }
  }

  lemma ExchangeKeepsEdge(g: Edges, s: seq<Component>, i: nat, j: nat, k: nat)
    requires IsTopologicalOrder(g, s) && i + 1 < |s| && !Edge(g, s[i], s[i + 1])
    requires j < |s| && k < |s| && Edge(g, Exchanged(s, i)[j], Exchanged(s, i)[k])
    ensures j < k
  {
    assert Edge(g, s[Origin(i, j)], s[Origin(i, k)]);
    assert Origin(i, j) < Origin(i, k);
  }

  lemma ExchangeIsTopological(g: Edges, s: seq<Component>, i: nat)
    requires IsTopologicalOrder(g, s) && i + 1 < |s| && !Edge(g, s[i], s[i + 1])
    ensures IsTopologicalOrder(g, Exchanged(s, i))
  {
    var t := Exchanged(s, i);
    ExchangeKeepsDistinct(s, i);
    ExchangeKeepsElements(s, i);
    forall j, k | 0 <= j < |t| && 0 <= k < |t| && Edge(g, t[j], t[k])
      ensures j < k
    {
      ExchangeKeepsEdge(g, s, i, j, k);
    }
  }

  lemma AgreeAt(s: seq<Component>, t: seq<Component>, n: nat, k: nat)
    requires k < n <= |s| && n <= |t| && s[..n] == t[..n]
    ensures s[k] == t[k]
  {
    assert s[..n][k] == t[..n][k];
  }

  lemma FirstToDiffer(s: seq<Component>, t: seq<Component>, i: nat)
    requires LexLeq(s, t) && i < |s| == |t| && s[i] != t[i] && s[..i] == t[..i]
    ensures Before(s[i], t[i])
  {
    var k :| 0 <= k < |s| && s[..k] == t[..k] && Before(s[k], t[k]);
    LessIsIrreflexive(s[k].value);
    if k < i {
      AgreeAt(s, t, i, k);
    } else if k > i {
      AgreeAt(s, t, k, i);
    }
  }

  /** In the least order a name stands right before a smaller one only when that one depends on it. */
  lemma NeighboursAreByName(g: Edges, s: seq<Component>, i: nat)
    requires LeastOrder(g, s) && i + 1 < |s| && !Edge(g, s[i], s[i + 1])
    ensures ComesFirst(s[i].value, s[i + 1].value)
  {
    var t := Exchanged(s, i);
    ExchangeIsTopological(g, s, i);
    assert t[i] == s[i + 1] != s[i] && t[..i] == s[..i];
    FirstToDiffer(s, t, i);
    LessIsComesFirst(s[i].value, s[i + 1].value);
  }

  lemma ShortMeansCycle(g: Edges, s: seq<Component>)
    requires Greedy(g, s) && |s| != |Nodes(g)|
    requires forall n :: !Ready(g, Elems(s), n)
    ensures HasCycle(g)
  {
    GreedyIsOrdered(g, s);
    DistinctCardinality(s);
    StuckMeansCycle(g, s);
  }

  method Sort(g: Dict) returns (r: Result<seq<Component>, SortError>)
    requires g.Valid()
    ensures r.Failure? <==> HasCycle(g.deps)
    ensures r.Success? ==> LeastOrder(g.deps, r.value)
  {
    var inDegree, children, nodes := BuildTables(g);
    ghost var edges := g.deps;
    TablesStart(edges, inDegree, children, nodes);
    var queue := SortedList(set n | n in nodes && inDegree[n] == 0);
    var ordered: seq<Component> := [];
    assert Elems(ordered) == {};
    while queue != []
      invariant Greedy(edges, ordered)
      invariant Degrees(edges, inDegree, Elems(ordered))
      invariant QueueHolds(queue, ZeroNodes(inDegree, Elems(ordered)))
      decreases nodes - Elems(ordered)
    {
      HeadCanBeEmitted(edges, inDegree, ordered, queue);
      var node := queue[0];
      forall c
        ensures Count(Children(children, node), c) == Needs(edges, c, node)
      {
        assert Listings(children, node, c) == Needs(edges, c, node);
      }
      inDegree, queue :=
        ReleaseChildren(edges, Children(children, node), node, Elems(ordered), inDegree, queue[1..]);
      ordered := ordered + [node];
    }
    ReadyIsZero(edges, inDegree, Elems(ordered));
    if |ordered| != |nodes| {
      ShortMeansCycle(edges, ordered);
      return Failure(DependencyCycle);
    }
    FinishedIsLeast(edges, ordered);
    return Success(ordered);
  }
}
