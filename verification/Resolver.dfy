/** Resolving a selection of components (dxrk/planner.py, DependencyResolver). */
module Resolver {
  // The dependency closure is collected by a recursive walk that fills one shared table, sorted,
  // and softened.

  import opened Wrappers
  import opened Ordering
  import opened Sequences
  import opened TopologicalSort
  import opened SoftOrdering

  const MEMORY := Component("DXRK_MEMORY")
  const GUARDIAN := Component("DXRK_GUARDIAN")
  const SDD := Component("sdd")
  const SKILLS := Component("skills")
  const CONTEXT7 := Component("context7")
  const PERSONA := Component("persona")
  const PERMISSIONS := Component("permissions")
  const THEME := Component("theme")

  const SOFT_PAIRS: seq<Pair> := [(PERSONA, MEMORY), (PERSONA, SDD)]

  datatype ResolveError =
    | UnknownComponent(component: Component)
    | UnknownDependency(component: Component, dependency: Component)
    | Cycle

  datatype Agent = Agent(value: string)

  datatype Plan =
    Plan(ordered: seq<Component>, added: seq<Component>, agents: seq<Agent>, unsupported: seq<Agent>)

  // ----- Reachability -----

  ghost predicate IsPath(g: Edges, p: seq<Component>) {
    && |p| > 0
    && forall i :: 0 <= i < |p| - 1 ==> Edge(g, p[i + 1], p[i])
  }

  /** b is a itself, or a dependency of a, or a dependency of one, and so on. */
  ghost predicate Reaches(g: Edges, a: Component, b: Component) {
    exists p :: IsPath(g, p) && p[0] == a && p[|p| - 1] == b
  }

  lemma ReachesItself(g: Edges, a: Component)
    ensures Reaches(g, a, a)
  {
    assert IsPath(g, [a]);
  }

  lemma ReachesThrough(g: Edges, a: Component, b: Component, c: Component)
    requires Edge(g, b, a) && Reaches(g, b, c)
    ensures Reaches(g, a, c)
  {
    var p :| IsPath(g, p) && p[0] == b && p[|p| - 1] == c;
    var q := [a] + p;
    forall i | 0 <= i < |q| - 1
      ensures Edge(g, q[i + 1], q[i])
    {
      if i > 0 {
        assert Edge(g, p[i - 1 + 1], p[i - 1]);
      }
    }
    assert IsPath(g, q);
  }

  ghost predicate Closed(g: Edges, s: set<Component>) {
    forall d, n :: n in s && Edge(g, d, n) ==> d in s
  }

  lemma {:induction false} ClosedContainsPath(g: Edges, s: set<Component>, p: seq<Component>)
    requires Closed(g, s) && IsPath(g, p) && p[0] in s
    ensures p[|p| - 1] in s
  {
    if |p| > 1 {
      assert Edge(g, p[0 + 1], p[0]);
      forall i | 0 <= i < |p[1..]| - 1
        ensures Edge(g, p[1..][i + 1], p[1..][i])
      {
        assert Edge(g, p[i + 1 + 1], p[i + 1]);
      }
      ClosedContainsPath(g, s, p[1..]);
    }
  }

  /** What a selection needs: everything reachable from a selected component. */
  ghost predicate InClosure(g: Edges, selection: seq<Component>, n: Component) {
    exists s :: s in selection && Reaches(g, s, n)
  }

  ghost predicate LeavesGraph(g: Edges, selection: seq<Component>) {
    exists n :: InClosure(g, selection, n) && n !in g
  }

  // ----- The shared table -----

  /** The `dependencies` dict that the recursive walk fills. */
  class DependencyTable {
    var keys: seq<Component>
    var deps: Edges

    ghost predicate Valid(g: Edges)
      reads this
    {
      && Distinct(keys) && Elems(keys) == deps.Keys
      && forall k :: k in deps ==> k in g && deps[k] == g[k]
    }

    constructor ()
      ensures keys == [] && deps == map[]
    {
      keys, deps := [], map[];
    }

    method Record(g: Edges, component: Component)
      requires Valid(g) && component in g && component !in deps
      modifies this
      ensures Valid(g)
      ensures deps.Keys == old(deps.Keys) + {component}
      ensures keys == old(keys) + [component]
    {
      assert component !in Elems(keys);
      deps := deps[component := g[component]];
      keys := keys + [component];
      assert forall x :: x in keys <==> x in old(keys) || x == component;
    }

    /**
     The recursive walk, on graphs with or without cycles: entries made by
     callers further up may still miss dependencies, new entries may not.
     */
    method Expand(g: Edges, component: Component) returns (err: Option<ResolveError>)
      requires Valid(g) && component in g
      modifies this
      ensures Valid(g)
      ensures old(deps.Keys) <= deps.Keys
      ensures AllReached(g, component, deps.Keys - old(deps.Keys))
      ensures err.None? ==> component in deps
      ensures err.None? ==> ClosedExcept(g, deps.Keys, old(deps.Keys))
      ensures err.Some? ==> err.value.UnknownDependency? && err.value.dependency !in g
                            && Reaches(g, component, err.value.dependency)
      ensures err.Some? ==> Blames(g, component, err.value)
      decreases g.Keys - deps.Keys
    {
      if component in deps {
        return None;
      }
      ghost var before := deps.Keys;
      Record(g, component);
      ReachesItself(g, component);
      for i := 0 to |g[component]|
        invariant Valid(g)
        invariant Expanding(g, component, i, before, deps.Keys)
      {
        var dep := g[component][i];
        if dep !in g {
          ReachesDependency(g, component, i);
          assert Reaches(g, component, component);
          return Some(UnknownDependency(component, dep));
        }
        ghost var sofar := deps.Keys;
        assert g.Keys - sofar < g.Keys - before;
        err := Expand(g, dep);
        ChildrenReached(g, component, i, deps.Keys - sofar);
        if err.Some? {
          ErrorReached(g, component, i, err.value.dependency);
          ErrorReached(g, component, i, err.value.component);
          return;
        }
        ChildExpanded(g, component, i, before, sofar, deps.Keys);
      }
      ChildrenExpanded(g, component, before, deps.Keys);
      return None;
    }
  }

  /** The error names a dependency outside the graph of a component that the walk reaches. */
  ghost predicate Blames(g: Edges, component: Component, e: ResolveError) {
    && e.UnknownDependency? && e.component in g && Reaches(g, component, e.component)
    && e.dependency in g[e.component] && e.dependency !in g
  }

  ghost predicate AllReached(g: Edges, component: Component, s: set<Component>) {
    forall k :: k in s ==> Reaches(g, component, k)
  }

  /** Every dependency of an entry outside `open` has an entry. */
  ghost predicate ClosedExcept(g: Edges, s: set<Component>, open: set<Component>) {
    forall d, n :: n in s && n !in open && Edge(g, d, n) ==> d in s
  }

  /** The walk has recorded component and finished its first i dependencies. */
  ghost predicate Expanding(g: Edges, component: Component, i: nat, before: set<Component>, s: set<Component>) {
    && component in g && i <= |g[component]|
    && before + {component} <= s
    && AllReached(g, component, s - before)
    && (forall j :: 0 <= j < i ==> g[component][j] in s)
    && ClosedExcept(g, s, before + {component})
  }

  lemma ReachesDependency(g: Edges, component: Component, i: nat)
    requires component in g && i < |g[component]|
    ensures Reaches(g, component, g[component][i])
  {
    ReachesItself(g, g[component][i]);
    ReachesThrough(g, component, g[component][i], g[component][i]);
  }

  lemma ErrorReached(g: Edges, component: Component, i: nat, n: Component)
    requires component in g && i < |g[component]| && Reaches(g, g[component][i], n)
    ensures Reaches(g, component, n)
  {
    ReachesThrough(g, component, g[component][i], n);
  }

  lemma ChildrenReached(g: Edges, component: Component, i: nat, s: set<Component>)
    requires component in g && i < |g[component]| && AllReached(g, g[component][i], s)
    ensures AllReached(g, component, s)
  {
    forall k | k in s
      ensures Reaches(g, component, k)
    {
      ReachesThrough(g, component, g[component][i], k);
    }
  }

  lemma ChildExpanded(g: Edges, component: Component, i: nat,
                      before: set<Component>, sofar: set<Component>, now: set<Component>)
    requires Expanding(g, component, i, before, sofar) && i < |g[component]|
    requires sofar <= now && g[component][i] in now
    requires AllReached(g, component, now - sofar) && ClosedExcept(g, now, sofar)
    ensures Expanding(g, component, i + 1, before, now)
  {
    forall d, n | n in now && n !in before + {component} && Edge(g, d, n)
      ensures d in now
    {
      assert n in sofar ==> d in sofar;
    }
  }

  lemma ChildrenExpanded(g: Edges, component: Component, before: set<Component>, s: set<Component>)
    requires component in g && Expanding(g, component, |g[component]|, before, s)
    ensures ClosedExcept(g, s, before)
  {
    forall d, n | n in s && n !in before && Edge(g, d, n)
      ensures d in s
    {
      if n == component {
        var j :| 0 <= j < |g[component]| && g[component][j] == d;
      }
    }
  }

  // ----- From the table to the plan -----

  /** The table holds exactly what the selection needs. */
  ghost predicate HoldsClosure(g: Edges, selection: seq<Component>, table: Edges) {
    && (forall k :: k in table ==> k in g && table[k] == g[k])
    && (forall n :: n in table <==> InClosure(g, selection, n))
    && Closed(g, table.Keys)
  }

  lemma ClosedContainsReached(g: Edges, keys: set<Component>, s: Component, n: Component)
    requires Closed(g, keys) && s in keys && Reaches(g, s, n)
    ensures n in keys
  {
    var p :| IsPath(g, p) && p[0] == s && p[|p| - 1] == n;
    ClosedContainsPath(g, keys, p);
  }

  lemma TableIsClosure(g: Edges, selection: seq<Component>, keys: set<Component>)
    requires Closed(g, keys) && InClosureAll(g, selection, keys)
    requires forall s :: s in selection ==> s in keys
    ensures forall n :: n in keys <==> InClosure(g, selection, n)
  {
    forall n | InClosure(g, selection, n)
      ensures n in keys
    {
      var s :| s in selection && Reaches(g, s, n);
      ClosedContainsReached(g, keys, s, n);
    }
  }

  lemma ClosureReached(g: Edges, selection: seq<Component>, i: nat, s: set<Component>)
    requires i < |selection| && AllReached(g, selection[i], s)
    ensures InClosureAll(g, selection, s)
  {
    forall k | k in s
      ensures InClosure(g, selection, k)
    {
      assert selection[i] in selection && Reaches(g, selection[i], k);
    }
  }

  ghost predicate InClosureAll(g: Edges, selection: seq<Component>, s: set<Component>) {
    forall k :: k in s ==> InClosure(g, selection, k)
  }

  /** The first i selected components are expanded. */
  ghost predicate Collecting(g: Edges, selection: seq<Component>, i: nat, s: set<Component>) {
    && i <= |selection|
    && (forall j :: 0 <= j < i ==> selection[j] in s)
    && Closed(g, s) && InClosureAll(g, selection, s)
  }

  lemma NextCollected(g: Edges, selection: seq<Component>, i: nat, before: set<Component>, s: set<Component>)
    requires Collecting(g, selection, i, before) && i < |selection|
    requires before <= s && selection[i] in s && ClosedExcept(g, s, before)
    requires AllReached(g, selection[i], s - before)
    ensures Collecting(g, selection, i + 1, s)
  {
    ClosureReached(g, selection, i, s - before);
    forall d, n | n in s && Edge(g, d, n)
      ensures d in s
    {
      assert n in before ==> d in before;
    }
  }

  lemma CollectedIsClosure(g: Edges, selection: seq<Component>, table: Edges)
    requires Collecting(g, selection, |selection|, table.Keys)
    requires forall k :: k in table ==> k in g && table[k] == g[k]
    ensures HoldsClosure(g, selection, table) && !LeavesGraph(g, selection)
  {
    TableIsClosure(g, selection, table.Keys);
  }

  lemma NodesOfTable(g: Edges, table: Edges)
    requires (forall k :: k in table ==> k in g && table[k] == g[k]) && Closed(g, table.Keys)
    ensures Nodes(table) == table.Keys
    ensures forall d, n :: Edge(table, d, n) <==> n in table && Edge(g, d, n)
  {
    forall c, d | c in table && d in table[c]
      ensures d in table
    {
      assert Edge(g, d, c);
    }
  }

  lemma {:induction false} CycleStaysInside(g: Edges, keys: set<Component>, p: seq<Component>, k: nat)
    requires Closed(g, keys) && IsCycle(g, p) && p[0] in keys && k < |p|
    ensures p[k] in keys
    decreases |p| - k
  {
    if k < |p| - 1 {
      CycleStaysInside(g, keys, p, k + 1);
      assert Edge(g, p[k], p[k + 1]);
    }
  }

  lemma CyclesOfTable(g: Edges, table: Edges)
    requires (forall k :: k in table ==> k in g && table[k] == g[k]) && Closed(g, table.Keys)
    ensures HasCycle(table) <==> exists p :: IsCycle(g, p) && p[0] in table
  {
    NodesOfTable(g, table);
    if p :| IsCycle(table, p) {
      assert Edge(table, p[|p| - 2], p[|p| - 2 + 1]);
      assert forall i :: 0 <= i < |p| - 1 ==> Edge(table, p[i], p[i + 1]);
      assert IsCycle(g, p);
    }
    if p :| IsCycle(g, p) && p[0] in table {
      forall i | 0 <= i < |p| - 1
        ensures Edge(table, p[i], p[i + 1])
      {
        CycleStaysInside(g, table.Keys, p, i + 1);
        assert Edge(g, p[i], p[i + 1]);
      }
      assert IsCycle(table, p);
    }
  }

  ghost predicate ClosureHasCycle(g: Edges, selection: seq<Component>) {
    exists p :: IsCycle(g, p) && InClosure(g, selection, p[0])
  }

  function NotSelected(ordered: seq<Component>, selection: seq<Component>): (added: seq<Component>)
    ensures forall c :: c in added <==> c in ordered && c !in selection
  {
    if ordered == [] then []
    else
      var last := ordered[|ordered| - 1];
      NotSelected(ordered[..|ordered| - 1], selection) + (if last in selection then [] else [last])
  }

  /** The order respects every dependency between its members. */
  ghost predicate KeepsDependencies(g: Edges, ordered: seq<Component>) {
    forall d, n :: n in ordered && Edge(g, d, n) ==> Precedes(ordered, d, n)
  }

  lemma SoftPlan(g: Edges, table: Edges, s: seq<Component>)
    requires (forall k :: k in table ==> k in g && table[k] == g[k]) && Closed(g, table.Keys)
    requires IsTopologicalOrder(table, s)
    ensures var r := SoftenAll(s, SOFT_PAIRS);
      && Distinct(r) && Elems(r) == table.Keys
      && (KeepsDependencies(g, r) <==> AllDependenciesBefore(g, s, SOFT_PAIRS))
      && (DepsOf(g, PERSONA) == [] ==> KeepsDependencies(g, r))
      && Satisfied(r, (PERSONA, MEMORY)) && Satisfied(r, (PERSONA, SDD))
  {
    NodesOfTable(g, table);
    SoftenSharedFirst(s, SOFT_PAIRS, PERSONA);
    SoftenSatisfies(s, SOFT_PAIRS, PERSONA, 0);
    SoftenSatisfies(s, SOFT_PAIRS, PERSONA, 1);
    SharedPassKeepsIff(table, s, SOFT_PAIRS, PERSONA);
    KeptIffOrdered(g, table, SoftenAll(s, SOFT_PAIRS));
    SameConditions(g, table, s, SOFT_PAIRS);
  }

  lemma KeptIffOrdered(g: Edges, table: Edges, r: seq<Component>)
    requires (forall k :: k in table ==> k in g && table[k] == g[k]) && Closed(g, table.Keys)
    requires Distinct(r) && Elems(r) == table.Keys
    ensures KeepsDependencies(g, r) <==> IsTopologicalOrder(table, r)
  {
    NodesOfTable(g, table);
    OrderByIndex(table, r);
    forall d, n
      ensures Edge(table, d, n) <==> n in r && Edge(g, d, n)
    {
      assert n in r <==> n in Elems(r);
    }
  }

  lemma SameConditions(g: Edges, table: Edges, s: seq<Component>, pairs: seq<Pair>)
    requires (forall k :: k in table ==> k in g && table[k] == g[k]) && Closed(g, table.Keys)
    requires Elems(s) == table.Keys
    ensures AllDependenciesBefore(table, s, pairs) <==> AllDependenciesBefore(g, s, pairs)
  {
    NodesOfTable(g, table);
    forall k | 0 <= k < |pairs| && Applies(s, pairs[k])
      ensures DependenciesBefore(table, s, pairs[k]) <==> DependenciesBefore(g, s, pairs[k])
    {
      assert pairs[k].0 in Elems(s);
    }
  }

  method CollectAdded(ordered: seq<Component>, selection: seq<Component>) returns (added: seq<Component>)
    ensures added == NotSelected(ordered, selection)
  {
    added := [];
    for i := 0 to |ordered|
      invariant added == NotSelected(ordered[..i], selection)
    {
      assert ordered[..i + 1][..i] == ordered[..i];
      if ordered[i] !in selection {
        added := added + [ordered[i]];
      }
    }
    assert ordered[..|ordered|] == ordered;
  }

  lemma PrefixInside(g: Edges, selection: seq<Component>, i: nat, keys: set<Component>)
    requires Collecting(g, selection, i, keys) && keys <= g.Keys
    ensures !LeavesGraph(g, selection[..i])
  {
    forall n | InClosure(g, selection[..i], n)
      ensures n in g
    {
      var s :| s in selection[..i] && Reaches(g, s, n);
      ClosedContainsReached(g, keys, s, n);
    }
  }

  /** The error at position i of the selection, when everything before it stays inside the graph. */
  ghost predicate FailsAt(g: Edges, selection: seq<Component>, i: nat, e: ResolveError) {
    && i < |selection| && !LeavesGraph(g, selection[..i])
    && if selection[i] !in g then e == UnknownComponent(selection[i]) else Blames(g, selection[i], e)
  }

  /** The error is about the first selected component that leaves the graph. */
  ghost predicate NamesFirst(g: Edges, selection: seq<Component>, e: ResolveError) {
    exists i: nat :: FailsAt(g, selection, i, e)
  }

  method CollectClosure(g: Edges, selection: seq<Component>) returns (r: Result<Dict, ResolveError>)
    ensures r.Failure? ==> !r.error.Cycle?
    ensures r.Failure? <==> LeavesGraph(g, selection)
    ensures r.Failure? ==> NamesFirst(g, selection, r.error)
    ensures r.Success? ==> r.value.Valid() && HoldsClosure(g, selection, r.value.deps)
  {
    var table := new DependencyTable();
    for i := 0 to |selection|
      invariant fresh(table) && table.Valid(g)
      invariant Collecting(g, selection, i, table.deps.Keys)
    {
      var selected := selection[i];
      PrefixInside(g, selection, i, table.deps.Keys);
      ReachesItself(g, selected);
      ClosureReached(g, selection, i, {selected});
      if selected !in g {
        assert FailsAt(g, selection, i, UnknownComponent(selected));
        return Failure(UnknownComponent(selected));
      }
      ghost var before := table.deps.Keys;
      var err := table.Expand(g, selected);
      if err.Some? {
        ClosureReached(g, selection, i, {err.value.dependency});
        assert FailsAt(g, selection, i, err.value);
        return Failure(err.value);
      }
      NextCollected(g, selection, i, before, table.deps.Keys);
    }
    CollectedIsClosure(g, selection, table.deps);
    return Success(Dict(table.keys, table.deps));
  }

  /** The least order of the closure, softened; this fixes the order completely (SameSelectionSamePlan). */
  ghost predicate IsPlanFor(g: Edges, selection: seq<Component>, ordered: seq<Component>) {
    exists table, s :: HoldsClosure(g, selection, table) && LeastOrder(table, s) && ordered == SoftenAll(s, SOFT_PAIRS)
  }

  lemma SameTable(g: Edges, a: seq<Component>, b: seq<Component>, first: Edges, second: Edges)
    requires forall n :: InClosure(g, a, n) <==> InClosure(g, b, n)
    requires HoldsClosure(g, a, first) && HoldsClosure(g, b, second)
    ensures first == second
  {
    forall n
      ensures n in first <==> n in second
    {
      assert InClosure(g, a, n) <==> InClosure(g, b, n);
    }
  }

  /** Plans for selections with the same closure, in whatever order they were made, are equal. */
  lemma SameSelectionSamePlan(g: Edges, a: seq<Component>, b: seq<Component>, r: seq<Component>, t: seq<Component>)
    requires forall n :: InClosure(g, a, n) <==> InClosure(g, b, n)
    requires IsPlanFor(g, a, r) && IsPlanFor(g, b, t)
    ensures r == t
  {
    var first, s :| HoldsClosure(g, a, first) && LeastOrder(first, s) && r == SoftenAll(s, SOFT_PAIRS);
    var second, u :| HoldsClosure(g, b, second) && LeastOrder(second, u) && t == SoftenAll(u, SOFT_PAIRS);
    SameTable(g, a, b, first, second);
    LeastOrderIsDetermined(first, second, s, u);
  }

  /** The agents of the selection, in order, by whether they are supported. */
  method DivideAgents(supported: set<Agent>, agents: seq<Agent>) returns (kept: seq<Agent>, rejected: seq<Agent>)
    ensures kept == Filter((a: Agent) => a in supported, agents)
    ensures rejected == Filter((a: Agent) => a !in supported, agents)
  {
    kept, rejected := [], [];
    ghost var yes, no := (a: Agent) => a in supported, (a: Agent) => a !in supported;
    for i := 0 to |agents|
      invariant kept == Filter(yes, agents[..i]) && rejected == Filter(no, agents[..i])
    {
      assert agents[..i + 1] == agents[..i] + [agents[i]];
      FilterAppend(yes, agents[..i], [agents[i]]);
      FilterAppend(no, agents[..i], [agents[i]]);
      FilterOne(yes, agents[i]);
      FilterOne(no, agents[i]);
      if agents[i] in supported {
        kept := kept + [agents[i]];
      } else {
        rejected := rejected + [agents[i]];
      }
    }
    assert agents[..|agents|] == agents;
    FilterAgree(yes, (a: Agent) => a in supported, agents);
    FilterAgree(no, (a: Agent) => a !in supported, agents);
  }

  /**
   Exactly when the plan keeps the dependencies, over the sorted list: for each built-in
   pair in it, every dependency of PERSONA stands before the pair's second component.
   */
  ghost predicate KeptExactly(g: Edges, selection: seq<Component>, ordered: seq<Component>) {
    forall table, s :: HoldsClosure(g, selection, table) && LeastOrder(table, s) ==>
      (KeepsDependencies(g, ordered) <==> AllDependenciesBefore(g, s, SOFT_PAIRS))
  }

  lemma PlanIsKeptExactly(g: Edges, selection: seq<Component>, ordered: seq<Component>)
    requires IsPlanFor(g, selection, ordered)
    ensures KeptExactly(g, selection, ordered)
  {
    var first, u :| HoldsClosure(g, selection, first) && LeastOrder(first, u) && ordered == SoftenAll(u, SOFT_PAIRS);
    forall table, s | HoldsClosure(g, selection, table) && LeastOrder(table, s)
      ensures KeepsDependencies(g, ordered) <==> AllDependenciesBefore(g, s, SOFT_PAIRS)
    {
      SameTable(g, selection, selection, first, table);
      LeastOrderIsDetermined(first, table, u, s);
      SoftPlan(g, table, s);
    }
  }

  method Resolve(g: Edges, selection: seq<Component>, supported: set<Agent>, agents: seq<Agent>)
    returns (r: Result<Plan, ResolveError>)
    ensures r.Failure? && !r.error.Cycle? <==> LeavesGraph(g, selection)
    ensures r.Failure? && !r.error.Cycle? ==> NamesFirst(g, selection, r.error)
    ensures r.Failure? && r.error.Cycle? <==> !LeavesGraph(g, selection) && ClosureHasCycle(g, selection)
    ensures r.Success? ==>
      && Distinct(r.value.ordered)
      && (forall n :: n in r.value.ordered <==> InClosure(g, selection, n))
      && IsPlanFor(g, selection, r.value.ordered)
      && r.value.added == NotSelected(r.value.ordered, selection)
      && KeptExactly(g, selection, r.value.ordered)
      && (DepsOf(g, PERSONA) == [] ==> KeepsDependencies(g, r.value.ordered))
      && Satisfied(r.value.ordered, (PERSONA, MEMORY)) && Satisfied(r.value.ordered, (PERSONA, SDD))
      && r.value.agents == Filter((a: Agent) => a in supported, agents)
      && r.value.unsupported == Filter((a: Agent) => a !in supported, agents)
  {
    var collected := CollectClosure(g, selection);
    if collected.Failure? {
      return Failure(collected.error);
    }
    var table := collected.value;
    CyclesOfTable(g, table.deps);
    var sorted := Sort(table);
    assert ClosureHasCycle(g, selection) <==> HasCycle(table.deps);
    if sorted.Failure? {
      return Failure(Cycle);
    }
    SoftPlan(g, table.deps, sorted.value);
    var ordered := ApplySoftOrdering(sorted.value, SOFT_PAIRS);
    assert forall n :: n in ordered <==> n in Elems(ordered);
    PlanIsKeptExactly(g, selection, ordered);
    var added := CollectAdded(ordered, selection);
    var kept, rejected := DivideAgents(supported, agents);
    return Success(Plan(ordered, added, kept, rejected));
  }

  // ----- The built-in graph -----

  const MVP_GRAPH: Edges := map[
    MEMORY := [], SDD := [MEMORY], SKILLS := [SDD], CONTEXT7 := [],
    PERSONA := [], PERMISSIONS := [], GUARDIAN := [], THEME := []
  ]

  function MvpRank(c: Component): nat {
    if c == SKILLS then 2 else if c == SDD then 1 else 0
  }

  lemma {:induction false} RankAlongPath(p: seq<Component>, k: nat)
    requires |p| > 0 && k < |p|
    requires forall i :: 0 <= i < |p| - 1 ==> Edge(MVP_GRAPH, p[i], p[i + 1])
    ensures MvpRank(p[k]) >= MvpRank(p[0]) + k
  {
    if k > 0 {
      RankAlongPath(p, k - 1);
      assert Edge(MVP_GRAPH, p[k - 1], p[k - 1 + 1]);
      assert SDD != MEMORY && SKILLS != SDD && SKILLS != MEMORY;
    }
  }

  /** Resolving a selection from the built-in graph never fails and always keeps the hard dependencies. */
  lemma MvpAlwaysResolves(selection: seq<Component>)
    requires forall s :: s in selection ==> s in MVP_GRAPH
    ensures !LeavesGraph(MVP_GRAPH, selection) && !ClosureHasCycle(MVP_GRAPH, selection)
    ensures DepsOf(MVP_GRAPH, PERSONA) == []
  {
    assert Closed(MVP_GRAPH, MVP_GRAPH.Keys);
    forall n | InClosure(MVP_GRAPH, selection, n)
      ensures n in MVP_GRAPH
    {
      var s :| s in selection && Reaches(MVP_GRAPH, s, n);
      ClosedContainsReached(MVP_GRAPH, MVP_GRAPH.Keys, s, n);
    }
    if p :| IsCycle(MVP_GRAPH, p) {
      RankAlongPath(p, |p| - 1);
      assert false;
    }
    assert PERSONA.value[0] == 'p' && MEMORY.value[0] == 'D' && SDD.value[0] == 's' && SKILLS.value[0] == 's';
  }

  /** The names by which the built-in components are known. */
  lemma BuiltInNames(c: Component)
    ensures c in MVP_GRAPH <==>
            c.value in {"DXRK_MEMORY", "sdd", "skills", "context7", "persona", "permissions", "DXRK_GUARDIAN", "theme"}
  {
  }

  /** What a selection of built-in components needs. */
  predicate MvpNeeds(selection: seq<Component>, n: Component) {
    || n in selection
    || (n == Component("sdd") && Component("skills") in selection)
    || (n == Component("DXRK_MEMORY") && (Component("sdd") in selection || Component("skills") in selection))
  }

  lemma MvpEdges(d: Component, n: Component)
    ensures Edge(MVP_GRAPH, d, n) <==>
            || (d == Component("DXRK_MEMORY") && n == Component("sdd"))
            || (d == Component("sdd") && n == Component("skills"))
  {
    DifferentComponents();
    assert SKILLS.value[1] == 'k' && SDD.value[1] == 'd' && MEMORY.value[0] == 'D' && PERSONA.value[0] == 'p';
    assert CONTEXT7.value[0] == 'c' && PERMISSIONS.value[0] == 'p' && GUARDIAN.value[0] == 'D' && THEME.value[0] == 't';
  }

  lemma MvpNeedsAreReached(selection: seq<Component>, n: Component)
    requires MvpNeeds(selection, n)
    ensures InClosure(MVP_GRAPH, selection, n)
  {
    var g := MVP_GRAPH;
    MvpEdges(MEMORY, SDD);
    MvpEdges(SDD, SKILLS);
    ReachesItself(g, n);
    if n !in selection {
      if n == SDD || SDD in selection {
        ReachesThrough(g, if n == SDD then SKILLS else SDD, n, n);
      } else {
        ReachesThrough(g, SDD, n, n);
        ReachesThrough(g, SKILLS, SDD, n);
      }
    }
  }

  lemma MvpNeedsAreClosed(selection: seq<Component>, keys: set<Component>)
    requires forall n :: n in keys <==> MvpNeeds(selection, n)
    ensures Closed(MVP_GRAPH, keys)
  {
    forall d, n | n in keys && Edge(MVP_GRAPH, d, n)
      ensures d in keys
    {
      MvpEdges(d, n);
      assert SKILLS.value[1] == 'k' && SDD.value[1] == 'd' && MEMORY.value[0] == 'D';
    }
  }

  lemma MvpClosure(selection: seq<Component>, n: Component)
    ensures InClosure(MVP_GRAPH, selection, n) <==> MvpNeeds(selection, n)
  {
    if InClosure(MVP_GRAPH, selection, n) {
      var s :| s in selection && Reaches(MVP_GRAPH, s, n);
      var keys := (set x | x in selection) + (set x | x in {SDD, MEMORY} && MvpNeeds(selection, x));
      MvpNeedsAreClosed(selection, keys);
      ClosedContainsReached(MVP_GRAPH, keys, s, n);
    } else if MvpNeeds(selection, n) {
      MvpNeedsAreReached(selection, n);
    }
  }

  /**
   Every plan over the built-in graph: the selection, sdd with skills, and the memory component with
   either, nothing else, each behind what it needs.
   */
  lemma MvpPlan(selection: seq<Component>, ordered: seq<Component>)
    requires (forall s :: s in selection ==> s in MVP_GRAPH) && IsPlanFor(MVP_GRAPH, selection, ordered)
    ensures forall n :: n in ordered <==> MvpNeeds(selection, n)
    ensures Component("sdd") in ordered ==> Precedes(ordered, Component("DXRK_MEMORY"), Component("sdd"))
    ensures Component("skills") in ordered ==> Precedes(ordered, Component("sdd"), Component("skills"))
  {
    forall n
      ensures n in ordered <==> MvpNeeds(selection, n)
    {
      PlanFacts(MVP_GRAPH, selection, ordered);
      MvpClosure(selection, n);
    }
    MvpAlwaysResolves(selection);
    var table, s :| HoldsClosure(MVP_GRAPH, selection, table) && LeastOrder(table, s)
                    && ordered == SoftenAll(s, SOFT_PAIRS);
    SoftPlan(MVP_GRAPH, table, s);
    MvpEdges(MEMORY, SDD);
    MvpEdges(SDD, SKILLS);
  }

  // ----- A soft pair against a dependency -----

  lemma PlanFacts(g: Edges, selection: seq<Component>, ordered: seq<Component>)
    requires IsPlanFor(g, selection, ordered)
    ensures forall n :: n in ordered <==> InClosure(g, selection, n)
    ensures Satisfied(ordered, (PERSONA, MEMORY)) && Satisfied(ordered, (PERSONA, SDD))
  {
    var table, s :| HoldsClosure(g, selection, table) && LeastOrder(table, s) && ordered == SoftenAll(s, SOFT_PAIRS);
    SoftPlan(g, table, s);
    assert forall n :: n in ordered <==> n in Elems(ordered);
  }

  lemma DifferentComponents()
    ensures PERSONA != MEMORY && PERSONA != SDD
  {
    assert PERSONA.value[0] == 'p' && MEMORY.value[0] == 'D' && SDD.value[0] == 's';
  }

  /** No plan keeps the dependencies of PERSONA when it depends on a component it is softly put before. */
  lemma SoftBeatsHard(g: Edges, selection: seq<Component>, ordered: seq<Component>, d: Component)
    requires IsPlanFor(g, selection, ordered) && InClosure(g, selection, PERSONA)
    requires d in {MEMORY, SDD} && Edge(g, d, PERSONA)
    ensures !KeepsDependencies(g, ordered)
  {
    PlanFacts(g, selection, ordered);
    DifferentComponents();
    assert PERSONA in ordered;
    assert !Precedes(ordered, d, PERSONA);
  }

  const PERSONA_ON_SDD: Edges := map[SDD := [], PERSONA := [SDD]]

  lemma OnlyEdge(d: Component, n: Component)
    requires Edge(PERSONA_ON_SDD, d, n)
    ensures d == SDD && n == PERSONA
  {
    DifferentComponents();
  }

  lemma PersonaOnSddResolves()
    ensures !LeavesGraph(PERSONA_ON_SDD, [PERSONA]) && !ClosureHasCycle(PERSONA_ON_SDD, [PERSONA])
  {
    var g := PERSONA_ON_SDD;
    DifferentComponents();
    forall n | InClosure(g, [PERSONA], n)
      ensures n in g
    {
      ClosedContainsReached(g, g.Keys, PERSONA, n);
    }
    forall p: seq<Component>
      ensures !IsCycle(g, p)
    {
      if IsCycle(g, p) {
        OnlyEdge(p[0], p[1]);
        if |p| > 2 {
          OnlyEdge(p[1], p[2]);
        }
      }
    }
  }

  /** A graph that resolves, and whose every plan puts PERSONA in front of SDD, which it depends on. */
  lemma PersonaComesTooEarly()
    ensures !LeavesGraph(PERSONA_ON_SDD, [PERSONA]) && !ClosureHasCycle(PERSONA_ON_SDD, [PERSONA])
    ensures forall ordered :: IsPlanFor(PERSONA_ON_SDD, [PERSONA], ordered) ==>
              !KeepsDependencies(PERSONA_ON_SDD, ordered)
  {
    PersonaOnSddResolves();
    ReachesItself(PERSONA_ON_SDD, PERSONA);
    assert InClosure(PERSONA_ON_SDD, [PERSONA], PERSONA);
    assert Edge(PERSONA_ON_SDD, SDD, PERSONA);
    forall ordered | IsPlanFor(PERSONA_ON_SDD, [PERSONA], ordered)
      ensures !KeepsDependencies(PERSONA_ON_SDD, ordered)
    {
      SoftBeatsHard(PERSONA_ON_SDD, [PERSONA], ordered, SDD);
    }
  }
}
