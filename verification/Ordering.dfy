/**
 Python's order on strings (by code point) and its stable list sort.

 Less is a strict total order. StableSort permutes its argument, sorts it by any strict weak
 order, and leaves elements that come in neither order where they stood to each other.
 Lists without repetition are those whose set of elements is as large as the list.
 */
module Ordering {

  predicate Less(a: string, b: string) {
    if b == [] then false
    else if a == [] then true
    else if a[0] != b[0] then a[0] < b[0]
    else Less(a[1..], b[1..])
  }

  lemma LessIsTotal(a: string, b: string)
    ensures a == b || Less(a, b) || Less(b, a)
  {
    if a != [] && b != [] && a[0] == b[0] {
      LessIsTotal(a[1..], b[1..]);
      assert a == [a[0]] + a[1..] && b == [b[0]] + b[1..];
    }
  }

  lemma LessIsIrreflexive(a: string)
    ensures !Less(a, a)
  {
  }

  lemma LessIsTransitive(a: string, b: string, c: string)
    requires Less(a, b) && Less(b, c)
    ensures Less(a, c)
  {
    if a != [] && a[0] == b[0] == c[0] {
      LessIsTransitive(a[1..], b[1..], c[1..]);
    }
  }

  lemma LessIsAsymmetric(a: string, b: string)
    ensures !(Less(a, b) && Less(b, a))
  {
    if Less(a, b) && Less(b, a) {
      LessIsTransitive(a, b, a);
      LessIsIrreflexive(a);
    }
  }

  /** a is smaller at k, where the two first differ. */
  predicate SmallerAt(a: string, b: string, k: nat) {
    k < |a| && k < |b| && a[..k] == b[..k] && a[k] < b[k]
  }

  /** a comes first: it is a proper beginning of b, or smaller where the two first differ. */
  ghost predicate ComesFirst(a: string, b: string) {
    (|a| < |b| && a == b[..|a|]) || exists k: nat :: SmallerAt(a, b, k)
  }

  lemma {:induction false} LessIsComesFirst(a: string, b: string)
    ensures Less(a, b) <==> ComesFirst(a, b)
  {
    if a != [] && b != [] {
      if a[0] == b[0] {
        LessIsComesFirst(a[1..], b[1..]);
        ComesFirstCons(a[0], a[1..], b[1..]);
        assert a == [a[0]] + a[1..] && b == [b[0]] + b[1..];
      } else {
        DifferentHeads(a, b);
      }
    }
  }

  lemma DifferentHeads(a: string, b: string)
    requires a != [] && b != [] && a[0] != b[0]
    ensures ComesFirst(a, b) <==> a[0] < b[0]
  {
    assert a[..0] == b[..0];
    assert a[0] < b[0] ==> SmallerAt(a, b, 0);
    forall k: nat
      ensures SmallerAt(a, b, k) ==> k == 0
    {
      assert 0 < k <= |a| && k <= |b| ==> a[..k][0] == a[0] && b[..k][0] == b[0];
    }
    assert |a| < |b| ==> b[..|a|][0] == b[0];
  }

  lemma SmallerCons(c: char, a: string, b: string, k: nat)
    ensures SmallerAt([c] + a, [c] + b, k + 1) <==> SmallerAt(a, b, k)
  {
    if k <= |a| && k <= |b| {
      var s, t := ([c] + a)[..k + 1], ([c] + b)[..k + 1];
      assert s == [c] + a[..k] && t == [c] + b[..k];
      assert s[1..] == a[..k] && t[1..] == b[..k];
    }
  }

  lemma ComesFirstCons(c: char, a: string, b: string)
    ensures ComesFirst([c] + a, [c] + b) <==> ComesFirst(a, b)
  {
    if |a| <= |b| {
      BeginningCons(c, a, b);
    }
    if k: nat :| SmallerAt(a, b, k) {
      SmallerCons(c, a, b, k);
    }
    if k: nat :| SmallerAt([c] + a, [c] + b, k) {
      assert k > 0;
      SmallerCons(c, a, b, k - 1);
    }
  }

  lemma BeginningCons(c: char, a: string, b: string)
    requires |a| <= |b|
    ensures [c] + a == ([c] + b)[..1 + |a|] <==> a == b[..|a|]
  {
    var t := [c] + b;
    assert t[..1 + |a|] == [c] + b[..|a|];
    assert ([c] + a)[1..] == a && t[..1 + |a|][1..] == b[..|a|];
  }

  // ----- Sorting by a strict weak order -----

  ghost predicate StrictWeakOrder<T(!new)>(before: (T, T) -> bool) {
    && (forall x, y :: !(before(x, y) && before(y, x)))
    && (forall x, y, z :: !before(x, y) && !before(y, z) ==> !before(x, z))
  }

  ghost predicate Sorted<T>(before: (T, T) -> bool, s: seq<T>) {
    forall i, j :: 0 <= i < j < |s| ==> !before(s[j], s[i])
  }

  /** Places x in front of every element that does not come before it. */
  function Insert<T>(before: (T, T) -> bool, x: T, s: seq<T>): (r: seq<T>)
    ensures multiset(r) == multiset(s) + multiset{x}
  {
    if s == [] then [x]
    else if before(s[0], x) then
      assert s == [s[0]] + s[1..];
      [s[0]] + Insert(before, x, s[1..])
    else [x] + s
  }

  function StableSort<T>(before: (T, T) -> bool, s: seq<T>): (r: seq<T>)
    ensures multiset(r) == multiset(s)
  {
    if s == [] then []
    else
      assert s == [s[0]] + s[1..];
      Insert(before, s[0], StableSort(before, s[1..]))
  }

  lemma {:induction false} InsertKeepsSorted<T(!new)>(before: (T, T) -> bool, x: T, s: seq<T>)
    requires StrictWeakOrder(before) && Sorted(before, s)
    ensures Sorted(before, Insert(before, x, s))
  {
    if s != [] && before(s[0], x) {
      InsertKeepsSorted(before, x, s[1..]);
      var r := Insert(before, x, s[1..]);
      forall k | 0 <= k < |r|
        ensures !before(r[k], s[0])
      {
        assert r[k] in multiset(r);
        assert r[k] == x || r[k] in s[1..];
      }
    }
  }

  lemma {:induction false} StableSortSorts<T(!new)>(before: (T, T) -> bool, s: seq<T>)
    requires StrictWeakOrder(before)
    ensures Sorted(before, StableSort(before, s))
  {
    if s != [] {
      StableSortSorts(before, s[1..]);
      InsertKeepsSorted(before, s[0], StableSort(before, s[1..]));
    }
  }

  lemma LessIsStrictWeak()
    ensures StrictWeakOrder(Less)
  {
    forall x: string, y: string
      ensures !(Less(x, y) && Less(y, x))
    {
      LessIsAsymmetric(x, y);
    }
    forall x: string, y: string, z: string | !Less(x, y) && !Less(y, z)
      ensures !Less(x, z)
    {
      LessIsTotal(x, y);
      LessIsTotal(y, z);
      LessIsAsymmetric(x, z);
      if Less(z, y) && Less(y, x) {
        LessIsTransitive(z, y, x);
      }
    }
  }

  // ----- Lists without repetition -----

  ghost predicate Distinct<T>(s: seq<T>) {
    forall i, j :: 0 <= i < j < |s| ==> s[i] != s[j]
  }

  function Elems<T>(s: seq<T>): set<T> {
    set x | x in s
  }

  lemma {:induction false} DistinctCardinality<T>(s: seq<T>)
    ensures |Elems(s)| <= |s|
    ensures Distinct(s) <==> |Elems(s)| == |s|
  {
    if s != [] {
      DistinctCardinality(s[1..]);
      assert Elems(s) == {s[0]} + Elems(s[1..]);
      if Distinct(s) {
        assert s[0] !in s[1..];
      }
      if |Elems(s)| == |s| {
        assert s[0] !in Elems(s[1..]);
        assert Distinct(s[1..]);
        forall i, j | 0 <= i < j < |s|
          ensures s[i] != s[j]
        {
          assert s[j] == s[1..][j - 1];
        }
      }
    }
  }

  lemma DistinctFromMultiset<T>(s: seq<T>, t: seq<T>)
    requires multiset(s) == multiset(t) && Distinct(s)
    ensures Distinct(t) && Elems(t) == Elems(s) && |t| == |s|
  {
    forall x
      ensures x in s <==> x in t
    {
      assert x in s <==> x in multiset(s);
      assert x in t <==> x in multiset(t);
    }
    assert Elems(s) == Elems(t);
    assert |multiset(s)| == |s| && |multiset(t)| == |t|;
    DistinctCardinality(s);
    DistinctCardinality(t);
  }
}
