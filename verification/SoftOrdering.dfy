/** The second pass over a sorted plan (dxrk/planner.py, apply_soft_ordering). */
module SoftOrdering {
  // Each pair (first, second) that is out of order moves `first` in front of `second`, shifting
  // the slice between them.

  import opened Ordering
  import opened TopologicalSort

  type Pair = (Component, Component)

  function IndexOf(s: seq<Component>, x: Component): (i: int)
    ensures -1 <= i < |s|
    ensures i >= 0 ==> s[i] == x && x !in s[..i]
    ensures i < 0 ==> x !in s
  {
    if s == [] then -1
    else if s[0] == x then 0
    else
      var k := IndexOf(s[1..], x);
      if k < 0 then -1
      else
        assert s[..k + 1] == [s[0]] + s[1..][..k];
        k + 1
  }

  /** The element at i goes to j, and the slice j..i moves up by one. */
  function MoveUp(s: seq<Component>, i: nat, j: nat): seq<Component>
    requires j <= i < |s|
  {
    s[..j] + [s[i]] + s[j..i] + s[i + 1..]
  }

  function Soften(s: seq<Component>, pair: Pair): seq<Component> {
    var i, j := IndexOf(s, pair.0), IndexOf(s, pair.1);
    if i < 0 || j < 0 || i < j then s else MoveUp(s, i, j)
  }

  function FoldLeft<A, B>(f: (A, B) -> A, a: A, bs: seq<B>): A {
    if bs == [] then a else f(FoldLeft(f, a, bs[..|bs| - 1]), bs[|bs| - 1])
  }

  lemma {:induction false} FoldLeftSplit<A, B>(f: (A, B) -> A, a: A, bs: seq<B>, k: nat)
    requires k <= |bs|
    ensures FoldLeft(f, a, bs) == FoldLeft(f, FoldLeft(f, a, bs[..k]), bs[k..])
  {
    if k < |bs| {
      var last := |bs| - 1;
      FoldLeftSplit(f, a, bs[..last], k);
      assert bs[..last][..k] == bs[..k];
      assert bs[k..][..|bs[k..]| - 1] == bs[..last][k..];
    } else {
      assert bs[..k] == bs;
    }
  }

  function SoftenAll(s: seq<Component>, pairs: seq<Pair>): seq<Component> {
    FoldLeft(Soften, s, pairs)
  }

  lemma SoftenNext(s: seq<Component>, pairs: seq<Pair>, k: nat)
    requires k < |pairs|
    ensures SoftenAll(s, pairs[..k + 1]) == Soften(SoftenAll(s, pairs[..k]), pairs[k])
  {
    assert pairs[..k + 1][..k] == pairs[..k];
  }

  /** The two slice assignments move the element at i up to j. */
  lemma SlicesMoveUp(s: seq<Component>, i: nat, j: nat)
    requires j <= i < |s|
    ensures (s[..j + 1] + s[j..i] + s[i + 1..])[j := s[i]] == MoveUp(s, i, j)
  {
  }

  method FindIndex(items: seq<Component>, target: Component) returns (index: int)
    ensures index == IndexOf(items, target)
  {
    for i := 0 to |items|
      invariant target !in items[..i]
    {
      if items[i] == target {
        FirstIndex(items, target, i);
        return i;
      }
      TakeNext(items, i);
    }
    assert items[..|items|] == items;
    return -1;
  }

  lemma {:induction false} FirstIndex(s: seq<Component>, x: Component, i: nat)
    requires i < |s| && s[i] == x && x !in s[..i]
    ensures IndexOf(s, x) == i
  {
    if i > 0 {
      assert s[1..][..i - 1] == s[..i][1..];
      assert s[0] == s[..i][0];
      FirstIndex(s[1..], x, i - 1);
    }
  }

  method ApplySoftOrdering(ordered: seq<Component>, pairs: seq<Pair>) returns (result: seq<Component>)
    ensures result == SoftenAll(ordered, pairs)
  {
    result := ordered;
    for k := 0 to |pairs|
      invariant result == SoftenAll(ordered, pairs[..k])
    {
      var (first, second) := pairs[k];
      var i := FindIndex(result, first);
      var j := FindIndex(result, second);
      SoftenNext(ordered, pairs, k);
      if i < 0 || j < 0 || i < j {
        continue;
      }
      SlicesMoveUp(result, i, j);
      var item := result[i];
      result := result[..j + 1] + result[j..i] + result[i + 1..];
      result := result[j := item];
    }
    assert pairs[..|pairs|] == pairs;
  }

  // ----- Where each element ends up -----

  lemma PositionAfterMove(s: seq<Component>, i: nat, j: nat, k: nat)
    requires j <= i < |s| && k < |s|
    ensures var k' := if k == i then j else if j <= k < i then k + 1 else k;
            |MoveUp(s, i, j)| == |s| && MoveUp(s, i, j)[k'] == s[k]
  {
  }

  lemma MoveUpPermutes(s: seq<Component>, i: nat, j: nat)
    requires j <= i < |s| && Distinct(s)
    ensures Distinct(MoveUp(s, i, j)) && Elems(MoveUp(s, i, j)) == Elems(s)
    ensures multiset(MoveUp(s, i, j)) == multiset(s)
  {
    assert s == s[..j] + s[j..i] + [s[i]] + s[i + 1..];
    DistinctFromMultiset(s, MoveUp(s, i, j));
  }

  lemma IndexIsPosition(s: seq<Component>, k: nat)
    requires Distinct(s) && k < |s|
    ensures IndexOf(s, s[k]) == k
  {
    FirstIndex(s, s[k], k);
  }

  lemma IndexAfterMove(s: seq<Component>, i: nat, j: nat, x: Component)
    requires j <= i < |s| && Distinct(s) && x in s
    ensures IndexOf(MoveUp(s, i, j), x)
         == (if x == s[i] then j else if j <= IndexOf(s, x) < i then IndexOf(s, x) + 1 else IndexOf(s, x))
  {
    var k := IndexOf(s, x);
    PositionAfterMove(s, i, j, k);
    MoveUpPermutes(s, i, j);
    IndexIsPosition(s, i);
    IndexIsPosition(MoveUp(s, i, j), if k == i then j else if j <= k < i then k + 1 else k);
  }

  ghost predicate Precedes(s: seq<Component>, x: Component, y: Component) {
    x in s && y in s && IndexOf(s, x) < IndexOf(s, y)
  }

  /** Which pairs of elements stand in order after the element at i moved up to j. */
  lemma PrecedesAfterMove(s: seq<Component>, i: nat, j: nat, x: Component, y: Component)
    requires j <= i < |s| && Distinct(s) && x in s && y in s
    ensures Precedes(MoveUp(s, i, j), x, y) <==>
            if y == s[i] then IndexOf(s, x) < j
            else if x == s[i] then j <= IndexOf(s, y)
            else Precedes(s, x, y)
  {
    IndexAfterMove(s, i, j, x);
    IndexAfterMove(s, i, j, y);
    IndexIsPosition(s, i);
    MoveUpPermutes(s, i, j);
    assert x in Elems(MoveUp(s, i, j)) && y in Elems(MoveUp(s, i, j));
    if x != s[i] && y != s[i] {
      assert s[IndexOf(s, x)] == x && s[IndexOf(s, y)] == y;
    }
  }

  predicate Moves(s: seq<Component>, pair: Pair) {
    pair.0 in s && pair.1 in s && IndexOf(s, pair.1) <= IndexOf(s, pair.0)
  }

  lemma SoftenPermutes(s: seq<Component>, pair: Pair)
    requires Distinct(s)
    ensures var r := Soften(s, pair); |r| == |s| && Distinct(r) && Elems(r) == Elems(s)
  {
    if Moves(s, pair) {
      MoveUpPermutes(s, IndexOf(s, pair.0), IndexOf(s, pair.1));
    }
  }

  lemma SoftenPrecedes(s: seq<Component>, pair: Pair, x: Component, y: Component)
    requires Distinct(s)
    ensures x != pair.0 && y != pair.0 ==> (Precedes(Soften(s, pair), x, y) <==> Precedes(s, x, y))
    ensures x == pair.0 && Precedes(s, x, y) ==> Precedes(Soften(s, pair), x, y)
    ensures x == pair.0 && y == pair.1 && x != y && x in s && y in s ==> Precedes(Soften(s, pair), x, y)
  {
    SoftenPermutes(s, pair);
    assert x in s <==> x in Elems(Soften(s, pair));
    assert y in s <==> y in Elems(Soften(s, pair));
    if Moves(s, pair) && x in s && y in s {
      PrecedesAfterMove(s, IndexOf(s, pair.0), IndexOf(s, pair.1), x, y);
    }
  }

  /** r has the elements of s, with x moved towards the front and nothing else. */
  ghost predicate OnlyMovedUp(s: seq<Component>, r: seq<Component>, x: Component) {
    && |r| == |s| && Distinct(r) && Elems(r) == Elems(s)
    && (forall a, b :: a != x && b != x ==> (Precedes(r, a, b) <==> Precedes(s, a, b)))
    && (forall b :: Precedes(s, x, b) ==> Precedes(r, x, b))
  }

  lemma SoftenOne(s: seq<Component>, pair: Pair)
    requires Distinct(s)
    ensures OnlyMovedUp(s, Soften(s, pair), pair.0)
    ensures pair.0 != pair.1 && pair.0 in s && pair.1 in s ==> Precedes(Soften(s, pair), pair.0, pair.1)
  {
    SoftenPermutes(s, pair);
    forall x, y {
      SoftenPrecedes(s, pair, x, y);
    }
  }

  ghost predicate Satisfied(r: seq<Component>, pair: Pair) {
    pair.0 != pair.1 && pair.0 in r && pair.1 in r ==> Precedes(r, pair.0, pair.1)
  }

  lemma StaysSatisfied(s: seq<Component>, r: seq<Component>, pair: Pair)
    requires OnlyMovedUp(s, r, pair.0) && Satisfied(s, pair)
    ensures Satisfied(r, pair)
  {
    assert pair.0 in r <==> pair.0 in Elems(r);
    assert pair.1 in r <==> pair.1 in Elems(r);
  }

  ghost predicate SharedFirst(pairs: seq<Pair>, x: Component) {
    forall k :: 0 <= k < |pairs| ==> pairs[k].0 == x
  }

  lemma OnlyMovedUpTwice(s: seq<Component>, t: seq<Component>, r: seq<Component>, x: Component)
    requires OnlyMovedUp(s, t, x) && OnlyMovedUp(t, r, x)
    ensures OnlyMovedUp(s, r, x)
  {
  }

  /** With one common first element x, the pass is a permutation that moves only x, towards the front. */
  lemma {:induction false} SoftenSharedFirst(s: seq<Component>, pairs: seq<Pair>, x: Component)
    requires Distinct(s) && SharedFirst(pairs, x)
    ensures OnlyMovedUp(s, SoftenAll(s, pairs), x)
  {
    if pairs != [] {
      var last := |pairs| - 1;
      var before := SoftenAll(s, pairs[..last]);
      SoftenSharedFirst(s, pairs[..last], x);
      SoftenOne(before, pairs[last]);
      OnlyMovedUpTwice(s, before, SoftenAll(s, pairs), x);
    }
  }

  lemma SatisfiedLast(s: seq<Component>, pair: Pair)
    requires Distinct(s)
    ensures Satisfied(Soften(s, pair), pair)
  {
    SoftenOne(s, pair);
    var r := Soften(s, pair);
    assert pair.0 in r <==> pair.0 in Elems(r);
    assert pair.1 in r <==> pair.1 in Elems(r);
  }

  lemma PairSatisfiedNext(s: seq<Component>, pairs: seq<Pair>, k: nat)
    requires k < |pairs| && Distinct(SoftenAll(s, pairs[..k]))
    ensures Satisfied(SoftenAll(s, pairs[..k + 1]), pairs[k])
  {
    assert pairs[..k + 1][..k] == pairs[..k];
    SatisfiedLast(SoftenAll(s, pairs[..k]), pairs[k]);
  }

  /** And it satisfies every pair at once. */
  lemma SoftenSatisfies(s: seq<Component>, pairs: seq<Pair>, x: Component, k: nat)
    requires Distinct(s) && SharedFirst(pairs, x) && k < |pairs|
    ensures Satisfied(SoftenAll(s, pairs), pairs[k])
  {
    SoftenSharedFirst(s, pairs[..k], x);
    SoftenSharedFirst(s, pairs[..k + 1], x);
    PairSatisfiedNext(s, pairs, k);
    RestKeepsPair(SoftenAll(s, pairs[..k + 1]), pairs[k + 1..], pairs[k]);
    FoldLeftSplit(Soften, s, pairs, k + 1);
  }

  lemma RestKeepsPair(s: seq<Component>, rest: seq<Pair>, pair: Pair)
    requires Distinct(s) && SharedFirst(rest, pair.0) && Satisfied(s, pair)
    ensures Satisfied(SoftenAll(s, rest), pair)
  {
    SoftenSharedFirst(s, rest, pair.0);
    StaysSatisfied(s, SoftenAll(s, rest), pair);
  }

  /** Pairs with different first elements can undo each other: here (b, c) undoes (a, b). */
  lemma DifferentFirstsCanConflict(a: Component, b: Component, c: Component)
    requires a != b && b != c && a != c
    ensures SoftenAll([c, b, a], [(a, b), (b, c)]) == [b, c, a]
    ensures !Precedes(SoftenAll([c, b, a], [(a, b), (b, c)]), a, b)
  {
    var pairs := [(a, b), (b, c)];
    assert pairs[..1] == [(a, b)] && pairs[..1][..0] == [];
    FirstIndex([c, b, a], a, 2);
    FirstIndex([c, b, a], b, 1);
    assert Soften([c, b, a], (a, b)) == [c, a, b];
    FirstIndex([c, a, b], b, 2);
    FirstIndex([c, a, b], c, 0);
    assert Soften([c, a, b], (b, c)) == [b, c, a];
    FirstIndex([b, c, a], a, 2);
    FirstIndex([b, c, a], b, 0);
    assert SoftenAll([c, b, a], pairs[..1]) == Soften(SoftenAll([c, b, a], pairs[..1][..0]), pairs[..1][0]);
  }

  // ----- Exactly when a pair holds -----

  /** The pass of q, on a list where p holds, puts q's first element p.1 in front of p.0. */
  predicate Undoes(s: seq<Component>, q: Pair, p: Pair) {
    q.0 == p.1 && q.1 in s && IndexOf(s, q.1) <= IndexOf(s, p.0)
  }

  /** The pass of q, on a list where p is out of order, puts q's first element p.0 in front of p.1. */
  predicate Restores(s: seq<Component>, q: Pair, p: Pair) {
    Applies(s, p) && q.0 == p.0 && q.1 in s && IndexOf(s, q.1) <= IndexOf(s, p.1)
  }

  /** A pair whose elements are both there and differ. */
  predicate Applies(s: seq<Component>, p: Pair) {
    p.0 in s && p.1 in s && p.0 != p.1
  }

  /** Exactly when one pair of the pass undoes another that holds. */
  lemma SoftenUndoesIff(s: seq<Component>, q: Pair, p: Pair)
    requires Distinct(s) && Precedes(s, p.0, p.1)
    ensures Precedes(Soften(s, q), p.0, p.1) <==> !Undoes(s, q, p)
  {
    if Moves(s, q) {
      PrecedesAfterMove(s, IndexOf(s, q.0), IndexOf(s, q.1), p.0, p.1);
    }
  }

  /** Exactly when one pair of the pass makes another hold that does not. */
  lemma SoftenRestoresIff(s: seq<Component>, q: Pair, p: Pair)
    requires Distinct(s) && !Precedes(s, p.0, p.1)
    ensures Precedes(Soften(s, q), p.0, p.1) <==> Restores(s, q, p)
  {
    if Applies(s, p) {
      IndexesDiffer(s, p.0, p.1);
      if Moves(s, q) {
        PrecedesAfterMove(s, IndexOf(s, q.0), IndexOf(s, q.1), p.0, p.1);
      }
    } else {
      SoftenPermutes(s, q);
      assert p.0 in s <==> p.0 in Elems(Soften(s, q));
      assert p.1 in s <==> p.1 in Elems(Soften(s, q));
    }
  }

  lemma IndexesDiffer(s: seq<Component>, x: Component, y: Component)
    requires x in s && y in s && x != y
    ensures IndexOf(s, x) != IndexOf(s, y)
  {
    assert s[IndexOf(s, x)] == x && s[IndexOf(s, y)] == y;
  }

  /** The list after the first m pairs of the pass. */
  function Upto(s: seq<Component>, pairs: seq<Pair>, m: nat): seq<Component>
    requires m <= |pairs|
  {
    SoftenAll(s, pairs[..m])
  }

  lemma {:induction false} UptoDistinct(s: seq<Component>, pairs: seq<Pair>, m: nat)
    requires Distinct(s) && m <= |pairs|
    ensures Distinct(Upto(s, pairs, m)) && Elems(Upto(s, pairs, m)) == Elems(s)
  {
    if m > 0 {
      UptoDistinct(s, pairs, m - 1);
      SoftenNext(s, pairs, m - 1);
      SoftenPermutes(Upto(s, pairs, m - 1), pairs[m - 1]);
    }
  }

  /** p holds before the pair m and not after it. */
  ghost predicate UndoneAt(s: seq<Component>, pairs: seq<Pair>, p: Pair, m: nat)
    requires m < |pairs|
  {
    var t := Upto(s, pairs, m);
    Precedes(t, p.0, p.1) && Undoes(t, pairs[m], p)
  }

  /** p holds after the pair m and not before it. */
  ghost predicate RestoredAt(s: seq<Component>, pairs: seq<Pair>, p: Pair, m: nat)
    requires m < |pairs|
  {
    var t := Upto(s, pairs, m);
    !Precedes(t, p.0, p.1) && Restores(t, pairs[m], p)
  }

  lemma HoldsNext(s: seq<Component>, pairs: seq<Pair>, p: Pair, m: nat)
    requires Distinct(s) && m < |pairs|
    ensures Precedes(Upto(s, pairs, m + 1), p.0, p.1) <==>
            if Precedes(Upto(s, pairs, m), p.0, p.1) then !UndoneAt(s, pairs, p, m) else RestoredAt(s, pairs, p, m)
  {
    var t := Upto(s, pairs, m);
    UptoDistinct(s, pairs, m);
    SoftenNext(s, pairs, m);
    if Precedes(t, p.0, p.1) {
      SoftenUndoesIff(t, pairs[m], p);
    } else {
      SoftenRestoresIff(t, pairs[m], p);
    }
  }

  /** What happens to p over the pass: whether it holds before each pair, and which pairs undo or restore it. */
  datatype History = History(holds: nat -> bool, undone: nat -> bool, restored: nat -> bool)

  ghost function HistoryOf(s: seq<Component>, pairs: seq<Pair>, p: Pair): History {
    History((m: nat) => m <= |pairs| && Precedes(Upto(s, pairs, m), p.0, p.1),
            (m: nat) => m < |pairs| && UndoneAt(s, pairs, p, m),
            (m: nat) => m < |pairs| && RestoredAt(s, pairs, p, m))
  }

  ghost predicate Follows(h: History, m: nat) {
    && (h.holds(m + 1) <==> if h.holds(m) then !h.undone(m) else h.restored(m))
    && (h.undone(m) ==> h.holds(m))
    && (h.restored(m) ==> !h.holds(m))
  }

  lemma HistoryFollows(s: seq<Component>, pairs: seq<Pair>, p: Pair)
    requires Distinct(s)
    ensures forall m: nat :: m < |pairs| ==> Follows(HistoryOf(s, pairs, p), m)
  {
    forall m: nat | m < |pairs|
      ensures Follows(HistoryOf(s, pairs, p), m)
    {
      HoldsNext(s, pairs, p, m);
    }
  }

  /** Between k and n, whatever undid p was followed by something that restored it. */
  ghost predicate AlwaysRestored(h: History, k: nat, n: nat) {
    forall m: nat :: k <= m < n && h.undone(m) ==> RestoredBetween(h, m, n)
  }

  ghost predicate RestoredBetween(h: History, m: nat, n: nat) {
    exists r: nat :: m < r < n && h.restored(r)
  }

  lemma {:induction false} HoldsFromIff(h: History, k: nat, n: nat)
    requires k <= n && h.holds(k) && forall m: nat :: k <= m < n ==> Follows(h, m)
    ensures h.holds(n) <==> AlwaysRestored(h, k, n)
    decreases n
  {
    if n > k {
      HoldsFromIff(h, k, n - 1);
      assert Follows(h, n - 1);
      LongerRun(h, k, n);
    }
  }

  /** One more pair: it must not undo, and if something is undone still, it must restore. */
  lemma LongerRun(h: History, k: nat, n: nat)
    requires k < n
    ensures AlwaysRestored(h, k, n) <==>
            !h.undone(n - 1) && (h.restored(n - 1) || AlwaysRestored(h, k, n - 1))
  {
    forall m: nat | k <= m < n - 1
      ensures RestoredBetween(h, m, n) <==> RestoredBetween(h, m, n - 1) || h.restored(n - 1)
    {
      if h.restored(n - 1) {
        assert m < n - 1 < n;
      }
    }
    assert !RestoredBetween(h, n - 1, n);
  }

  lemma HoldsAfter(s: seq<Component>, pairs: seq<Pair>, k: nat)
    requires Distinct(s) && k < |pairs| && Applies(s, pairs[k])
    ensures Precedes(Upto(s, pairs, k + 1), pairs[k].0, pairs[k].1)
  {
    var p, before := pairs[k], Upto(s, pairs, k);
    UptoDistinct(s, pairs, k);
    UptoDistinct(s, pairs, k + 1);
    SoftenNext(s, pairs, k);
    SoftenOne(before, p);
    assert p.0 in Elems(before) && p.1 in Elems(before);
  }

  /**
   Exactly when a pair of the pass holds at its end, for any pairs: every later pair that
   undid it was followed by one that restored it.
   */
  lemma PairHoldsIff(s: seq<Component>, pairs: seq<Pair>, k: nat)
    requires Distinct(s) && k < |pairs| && Applies(s, pairs[k])
    ensures Precedes(SoftenAll(s, pairs), pairs[k].0, pairs[k].1) <==>
            AlwaysRestored(HistoryOf(s, pairs, pairs[k]), k + 1, |pairs|)
  {
    var h := HistoryOf(s, pairs, pairs[k]);
    HoldsAfter(s, pairs, k);
    HistoryFollows(s, pairs, pairs[k]);
    HoldsFromIff(h, k + 1, |pairs|);
    assert pairs[..|pairs|] == pairs;
  }

  /** In particular a pair holds when no later pair has its second element first. */
  lemma NothingUndoes(s: seq<Component>, pairs: seq<Pair>, k: nat)
    requires Distinct(s) && k < |pairs| && Applies(s, pairs[k])
    requires forall m :: k < m < |pairs| ==> pairs[m].0 != pairs[k].1
    ensures Precedes(SoftenAll(s, pairs), pairs[k].0, pairs[k].1)
  {
    PairHoldsIff(s, pairs, k);
    var h := HistoryOf(s, pairs, pairs[k]);
    assert forall m: nat :: k < m < |pairs| ==> !h.undone(m);
  }

  // ----- Hard dependencies -----

  lemma OrderByIndex(g: Edges, s: seq<Component>)
    requires Distinct(s) && Elems(s) == Nodes(g)
    ensures IsTopologicalOrder(g, s) <==> forall d, n :: Edge(g, d, n) ==> Precedes(s, d, n)
  {
    if forall d, n :: Edge(g, d, n) ==> Precedes(s, d, n) {
      forall i, j | 0 <= i < |s| && 0 <= j < |s| && Edge(g, s[i], s[j])
        ensures i < j
      {
        IndexIsPosition(s, i);
        IndexIsPosition(s, j);
        assert Precedes(s, s[i], s[j]);
      }
    }
    if IsTopologicalOrder(g, s) {
      forall d, n | Edge(g, d, n)
        ensures Precedes(s, d, n)
      {
        assert d in Nodes(g) && n in Nodes(g);
        assert d in Elems(s) && n in Elems(s);
        var i, j := IndexOf(s, d), IndexOf(s, n);
        assert Edge(g, s[i], s[j]);
      }
    }
  }

  /** The pass keeps hard dependencies when the element it moves has none of its own. */
  lemma SoftenKeepsDependencies(g: Edges, s: seq<Component>, pairs: seq<Pair>, x: Component)
    requires IsTopologicalOrder(g, s) && DepsOf(g, x) == []
    requires SharedFirst(pairs, x)
    ensures IsTopologicalOrder(g, SoftenAll(s, pairs))
  {
    var r := SoftenAll(s, pairs);
    SoftenSharedFirst(s, pairs, x);
    OrderByIndex(g, s);
    OrderByIndex(g, r);
    forall d, n | Edge(g, d, n)
      ensures Precedes(r, d, n)
    {
      assert Precedes(s, d, n) && n != x;
    }
  }

  /** Every dependency of the pair's first element stands before its second. */
  ghost predicate DependenciesBefore(g: Edges, s: seq<Component>, pair: Pair) {
    forall d :: Edge(g, d, pair.0) ==> Precedes(s, d, pair.1)
  }

  lemma MoveKeepsDependencies(g: Edges, s: seq<Component>, pair: Pair)
    requires IsTopologicalOrder(g, s) && Moves(s, pair) && pair.0 != pair.1
    ensures IsTopologicalOrder(g, Soften(s, pair)) <==> DependenciesBefore(g, s, pair)
  {
    var r := Soften(s, pair);
    OrderByIndex(g, s);
    SoftenPermutes(s, pair);
    OrderByIndex(g, r);
    forall d, n | Edge(g, d, n)
      ensures Precedes(r, d, n) <==> (n == pair.0 ==> Precedes(s, d, pair.1))
    {
      assert Precedes(s, d, n);
      PrecedesAfterMove(s, IndexOf(s, pair.0), IndexOf(s, pair.1), d, n);
    }
  }

  /**
   Exactly when one pair keeps a topological order: it moves nothing, or every
   dependency of `first` stands before `second`.
   */
  lemma PairKeepsDependencies(g: Edges, s: seq<Component>, pair: Pair)
    requires IsTopologicalOrder(g, s)
    ensures IsTopologicalOrder(g, Soften(s, pair)) <==>
            (Moves(s, pair) && pair.0 != pair.1 ==> DependenciesBefore(g, s, pair))
  {
    if Moves(s, pair) && pair.0 != pair.1 {
      MoveKeepsDependencies(g, s, pair);
    } else {
      SoftenNothing(s, pair);
    }
  }

  lemma SoftenNothing(s: seq<Component>, pair: Pair)
    requires !Moves(s, pair) || pair.0 == pair.1
    ensures Soften(s, pair) == s
  {
  }

  // ----- Exactly when a whole pass keeps hard dependencies -----

  /** For each pair that is in the list, every dependency of its first element stands before its second. */
  ghost predicate AllDependenciesBefore(g: Edges, s: seq<Component>, pairs: seq<Pair>) {
    forall k :: 0 <= k < |pairs| && Applies(s, pairs[k]) ==> DependenciesBefore(g, s, pairs[k])
  }

  lemma DependenciesStayBefore(g: Edges, s: seq<Component>, t: seq<Component>, pair: Pair)
    requires OnlyMovedUp(s, t, pair.0) && Applies(s, pair) && DependenciesBefore(g, s, pair)
    ensures DependenciesBefore(g, t, pair)
  {
  }

  lemma {:induction false} SharedPassKeeps(g: Edges, s: seq<Component>, pairs: seq<Pair>, x: Component)
    requires IsTopologicalOrder(g, s) && SharedFirst(pairs, x) && AllDependenciesBefore(g, s, pairs)
    ensures IsTopologicalOrder(g, SoftenAll(s, pairs))
  {
    if pairs != [] {
      var init, pair := pairs[..|pairs| - 1], pairs[|pairs| - 1];
      var before := SoftenAll(s, init);
      SharedPassKeeps(g, s, init, x);
      SoftenSharedFirst(s, init, x);
      PairKeepsDependencies(g, before, pair);
      if Moves(before, pair) && pair.0 != pair.1 {
        assert pair.0 in Elems(before) && pair.1 in Elems(before);
        DependenciesStayBefore(g, s, before, pair);
      }
    }
  }

  lemma SharedPassNeeds(g: Edges, s: seq<Component>, pairs: seq<Pair>, x: Component, k: nat)
    requires IsTopologicalOrder(g, s) && SharedFirst(pairs, x) && IsTopologicalOrder(g, SoftenAll(s, pairs))
    requires k < |pairs| && Applies(s, pairs[k])
    ensures DependenciesBefore(g, s, pairs[k])
  {
    var r, y := SoftenAll(s, pairs), pairs[k].1;
    SoftenSharedFirst(s, pairs, x);
    SoftenSatisfies(s, pairs, x, k);
    OrderByIndex(g, r);
    assert x in Elems(r) && y in Elems(r);
    forall d | Edge(g, d, x)
      ensures Precedes(s, d, y)
    {
      assert Precedes(r, d, x) && Precedes(r, x, y);
      assert Precedes(r, d, y);
    }
  }

  /** Exactly when a pass whose pairs share their first element keeps a topological order. */
  lemma SharedPassKeepsIff(g: Edges, s: seq<Component>, pairs: seq<Pair>, x: Component)
    requires IsTopologicalOrder(g, s) && SharedFirst(pairs, x)
    ensures IsTopologicalOrder(g, SoftenAll(s, pairs)) <==> AllDependenciesBefore(g, s, pairs)
  {
    if IsTopologicalOrder(g, SoftenAll(s, pairs)) {
      forall k | 0 <= k < |pairs| && Applies(s, pairs[k])
        ensures DependenciesBefore(g, s, pairs[k])
      {
        SharedPassNeeds(g, s, pairs, x, k);
      }
    } else if AllDependenciesBefore(g, s, pairs) {
      SharedPassKeeps(g, s, pairs, x);
    }
  }

  lemma EdgeHoldsIff(s: seq<Component>, pairs: seq<Pair>, d: Component, n: Component)
    requires Distinct(s) && Precedes(s, d, n)
    ensures Precedes(SoftenAll(s, pairs), d, n) <==> AlwaysRestored(HistoryOf(s, pairs, (d, n)), 0, |pairs|)
  {
    assert pairs[..0] == [] && pairs[..|pairs|] == pairs;
    HistoryFollows(s, pairs, (d, n));
    HoldsFromIff(HistoryOf(s, pairs, (d, n)), 0, |pairs|);
  }

  /**
   Exactly when a pass keeps a topological order, for any pairs: every dependency that a
   pair undid was restored by a later one.
   */
  lemma PassKeepsIff(g: Edges, s: seq<Component>, pairs: seq<Pair>)
    requires IsTopologicalOrder(g, s)
    ensures IsTopologicalOrder(g, SoftenAll(s, pairs)) <==>
            forall d, n :: Edge(g, d, n) ==> AlwaysRestored(HistoryOf(s, pairs, (d, n)), 0, |pairs|)
  {
    UptoDistinct(s, pairs, |pairs|);
    assert pairs[..|pairs|] == pairs;
    OrderByIndex(g, s);
    OrderByIndex(g, SoftenAll(s, pairs));
    forall d, n | Edge(g, d, n)
      ensures Precedes(SoftenAll(s, pairs), d, n) <==> AlwaysRestored(HistoryOf(s, pairs, (d, n)), 0, |pairs|)
    {
      EdgeHoldsIff(s, pairs, d, n);
    }
  }
}
