/**
 Selecting from a sequence and mapping over it, as list comprehensions do.

 Filter and Map commute with concatenation; selecting twice is selecting by both conditions;
 and selecting commutes with the stable sort. These laws carry the parsers of git output,
 the pruning of backups and the checksum.
 */
module Sequences {
  import opened Ordering

  function Filter<T>(p: T -> bool, s: seq<T>): seq<T> {
    if s == [] then [] else (if p(s[0]) then [s[0]] else []) + Filter(p, s[1..])
  }

  lemma {:induction false} FilterAppend<T>(p: T -> bool, a: seq<T>, b: seq<T>)
    ensures Filter(p, a + b) == Filter(p, a) + Filter(p, b)
  {
    if a == [] {
      assert a + b == b;
    } else {
      FilterAppend(p, a[1..], b);
      assert (a + b)[1..] == a[1..] + b;
      var x := if p(a[0]) then [a[0]] else [];
      assert x + (Filter(p, a[1..]) + Filter(p, b)) == (x + Filter(p, a[1..])) + Filter(p, b);
    }
  }

  lemma FilterOne<T>(p: T -> bool, x: T)
    ensures Filter(p, [x]) == if p(x) then [x] else []
  {
    assert [x][1..] == [];
  }

  function Map<T, U>(f: T -> U, s: seq<T>): (r: seq<U>)
    ensures |r| == |s|
  {
    if s == [] then [] else [f(s[0])] + Map(f, s[1..])
  }

  lemma {:induction false} MapAppend<T, U>(f: T -> U, s: seq<T>, t: seq<T>)
    ensures Map(f, s + t) == Map(f, s) + Map(f, t)
  {
    if s == [] {
      assert s + t == t;
    } else {
      MapAppend(f, s[1..], t);
      assert (s + t)[1..] == s[1..] + t;
      assert [f(s[0])] + (Map(f, s[1..]) + Map(f, t)) == ([f(s[0])] + Map(f, s[1..])) + Map(f, t);
    }
  }

  lemma MapCons<T, U>(f: T -> U, x: T, s: seq<T>)
    ensures Map(f, [x] + s) == [f(x)] + Map(f, s)
  {
    assert ([x] + s)[1..] == s;
  }

  lemma MapOne<T, U>(f: T -> U, x: T)
    ensures Map(f, [x]) == [f(x)]
  {
    assert [x][1..] == [];
  }

  lemma MapSnoc<T, U>(f: T -> U, s: seq<T>, x: T)
    ensures Map(f, s + [x]) == Map(f, s) + [f(x)]
  {
    MapAppend(f, s, [x]);
    MapOne(f, x);
  }

  lemma SameSnoc<T>(s: seq<T>, x: T, t: seq<T>, y: T)
    requires s + [x] == t + [y]
    ensures s == t && x == y
  {
    assert |s + [x]| == |t + [y]|;
    assert (s + [x])[|s|] == x && (t + [y])[|t|] == y;
    assert s == (s + [x])[..|s|] && t == (t + [y])[..|t|];
  }

  lemma {:induction false} FilterMember<T>(p: T -> bool, s: seq<T>, x: T)
    ensures x in Filter(p, s) <==> x in s && p(x)
  {
    if s != [] {
      FilterMember(p, s[1..], x);
    }
  }

  lemma FilterCons<T>(p: T -> bool, x: T, s: seq<T>)
    ensures Filter(p, [x] + s) == if p(x) then [x] + Filter(p, s) else Filter(p, s)
  {
    assert ([x] + s)[1..] == s;
  }

  lemma {:induction false} FilterAgree<T>(p: T -> bool, q: T -> bool, s: seq<T>)
    requires forall x :: x in s ==> p(x) == q(x)
    ensures Filter(p, s) == Filter(q, s)
  {
    if s != [] {
      assert s[0] in s;
      FilterAgree(p, q, s[1..]);
    }
  }

  lemma {:induction false} FilterAll<T>(p: T -> bool, s: seq<T>)
    requires forall x :: x in s ==> p(x)
    ensures Filter(p, s) == s
  {
    if s != [] {
      assert s[0] in s;
      FilterAll(p, s[1..]);
    }
  }

  lemma {:induction false} FilterNone<T>(p: T -> bool, s: seq<T>)
    requires forall x :: x in s ==> !p(x)
    ensures Filter(p, s) == []
  {
    if s != [] {
      assert s[0] in s;
      FilterNone(p, s[1..]);
    }
  }

  function Flatten<T>(blocks: seq<seq<T>>): seq<T> {
    if blocks == [] then [] else blocks[0] + Flatten(blocks[1..])
  }

  lemma {:induction false} FlattenSnoc<T>(blocks: seq<seq<T>>, last: seq<T>)
    ensures Flatten(blocks + [last]) == Flatten(blocks) + last
  {
    if blocks == [] {
      assert [last][0] == last && [last][1..] == [];
      assert Flatten([last]) == last + Flatten<T>([]);
      assert last + [] == last == [] + last;
    } else {
      FlattenSnoc(blocks[1..], last);
      assert (blocks + [last])[1..] == blocks[1..] + [last];
      assert blocks[0] + (Flatten(blocks[1..]) + last) == (blocks[0] + Flatten(blocks[1..])) + last;
    }
  }

  /** Selecting by q and then by p is selecting by both at once, as r does. */
  lemma {:induction false} FilterTwice<T>(p: T -> bool, q: T -> bool, r: T -> bool, s: seq<T>)
    requires forall x :: x in s ==> r(x) == (p(x) && q(x))
    ensures Filter(p, Filter(q, s)) == Filter(r, s)
  {
    if s != [] {
      FilterTwice(p, q, r, s[1..]);
      assert s == [s[0]] + s[1..] && s[0] in s;
      FilterCons(q, s[0], s[1..]);
      FilterCons(r, s[0], s[1..]);
      FilterCons(p, s[0], Filter(q, s[1..]));
    }
  }

  lemma {:induction false} FilterDistinct<T>(p: T -> bool, s: seq<T>)
    requires Distinct(s)
    ensures Distinct(Filter(p, s))
  {
    if s != [] {
      FilterDistinct(p, s[1..]);
      FilterMember(p, s[1..], s[0]);
    }
  }

  // ----- Selecting and sorting -----

  lemma InsertInFront<T>(before: (T, T) -> bool, x: T, s: seq<T>)
    requires forall y :: y in s ==> !before(y, x)
    ensures Insert(before, x, s) == [x] + s
  {
    if s != [] {
      assert s[0] in s;
    }
  }

  lemma InsertBehind<T>(before: (T, T) -> bool, y: T, x: T, s: seq<T>)
    requires before(y, x)
    ensures Insert(before, x, [y] + s) == [y] + Insert(before, x, s)
  {
    assert ([y] + s)[1..] == s;
  }

  /** The elements that come before x form a prefix of the list. */
  ghost predicate Prefixed<T>(before: (T, T) -> bool, x: T, s: seq<T>) {
    forall i, j :: 0 <= i < j < |s| && before(s[j], x) ==> before(s[i], x)
  }

  lemma SortedIsPrefixed<T(!new)>(before: (T, T) -> bool, x: T, s: seq<T>)
    requires StrictWeakOrder(before) && Sorted(before, s)
    ensures Prefixed(before, x, s)
  {
    forall i, j | 0 <= i < j < |s| && before(s[j], x)
      ensures before(s[i], x)
    {
      assert !before(s[j], s[i]);
    }
  }

  lemma PrefixedSort<T(!new)>(before: (T, T) -> bool, x: T, s: seq<T>)
    requires StrictWeakOrder(before)
    ensures Prefixed(before, x, StableSort(before, s))
  {
    StableSortSorts(before, s);
    SortedIsPrefixed(before, x, StableSort(before, s));
  }

  lemma {:induction false} FilterInsert<T>(before: (T, T) -> bool, p: T -> bool, x: T, s: seq<T>)
    requires Prefixed(before, x, s)
    ensures Filter(p, Insert(before, x, s)) == if p(x) then Insert(before, x, Filter(p, s)) else Filter(p, s)
  {
    if s != [] && before(s[0], x) {
      FilterInsert(before, p, x, s[1..]);
      FilterCons(p, s[0], Insert(before, x, s[1..]));
      assert s == [s[0]] + s[1..];
      FilterCons(p, s[0], s[1..]);
      InsertBehind(before, s[0], x, Filter(p, s[1..]));
    } else {
      FilterCons(p, x, s);
      forall y | y in Filter(p, s)
        ensures !before(y, x)
      {
        FilterMember(p, s, y);
      }
      InsertInFront(before, x, Filter(p, s));
    }
  }

  lemma SortCons<T>(before: (T, T) -> bool, x: T, s: seq<T>)
    ensures StableSort(before, [x] + s) == Insert(before, x, StableSort(before, s))
  {
    assert ([x] + s)[1..] == s;
  }

  lemma SortFilterStep<T>(before: (T, T) -> bool, p: T -> bool, x: T, s: seq<T>)
    requires Prefixed(before, x, StableSort(before, s))
    requires StableSort(before, Filter(p, s)) == Filter(p, StableSort(before, s))
    ensures StableSort(before, Filter(p, [x] + s)) == Filter(p, StableSort(before, [x] + s))
  {
    FilterInsert(before, p, x, StableSort(before, s));
    FilterCons(p, x, s);
    SortCons(before, x, s);
    SortCons(before, x, Filter(p, s));
  }

  /** Sorting a selection is selecting from the sorted list. */
  lemma {:induction false} SortFilter<T(!new)>(before: (T, T) -> bool, p: T -> bool, s: seq<T>)
    requires StrictWeakOrder(before)
    ensures StableSort(before, Filter(p, s)) == Filter(p, StableSort(before, s))
  {
    if s != [] {
      SortFilter(before, p, s[1..]);
      PrefixedSort(before, s[0], s[1..]);
      SortFilterStep(before, p, s[0], s[1..]);
      assert s == [s[0]] + s[1..];
    }
  }

  lemma {:induction false} SortOfEquals<T>(before: (T, T) -> bool, s: seq<T>)
    requires forall x, y :: x in s && y in s ==> !before(x, y)
    ensures StableSort(before, s) == s
  {
    if s != [] {
      assert forall x :: x in s[1..] ==> x in s;
      SortOfEquals(before, s[1..]);
      assert s == [s[0]] + s[1..] && s[0] in s;
      InsertInFront(before, s[0], s[1..]);
    }
  }

  /** The sort is stable: elements that come in neither order keep their order. */
  lemma SortKeepsEquals<T(!new)>(before: (T, T) -> bool, p: T -> bool, s: seq<T>)
    requires StrictWeakOrder(before)
    requires forall x, y :: x in s && y in s && p(x) && p(y) ==> !before(x, y)
    ensures Filter(p, StableSort(before, s)) == Filter(p, s)
  {
    forall x, y | x in Filter(p, s) && y in Filter(p, s)
      ensures !before(x, y)
    {
      FilterMember(p, s, x);
      FilterMember(p, s, y);
    }
    SortFilter(before, p, s);
    SortOfEquals(before, Filter(p, s));
  }
}
