/**
 The checksum of a list of files (dxrk/backup.py).

 The file system and the hash function are parameters; the hash is any function of the text.
 */
module Checksum {
  import opened Wrappers
  import opened Ordering
  import opened Sequences

  datatype Path = Path(name: string)

  datatype Digest = Digest(hex: string)

  datatype FileState = Missing | StatFails | Special | Unreadable | Regular(data: string)

  datatype Error = StatError(path: Path) | ReadError(path: Path)

  datatype Line = Line(path: Path, digest: Digest)

  predicate IsBad(f: FileState) {
    f.StatFails? || f.Unreadable?
  }

  /** The lines of the regular files, or the error of the first path that cannot be read. */
  function Scan(fs: Path -> FileState, sha: string -> Digest, paths: seq<Path>): Result<seq<Line>, Error> {
    if paths == [] then Success([])
    else
      match fs(paths[0])
      case StatFails => Failure(StatError(paths[0]))
      case Unreadable => Failure(ReadError(paths[0]))
      case Regular(data) =>
        (match Scan(fs, sha, paths[1..])
         case Failure(e) => Failure(e)
         case Success(lines) => Success([Line(paths[0], sha(data))] + lines))
      case _ => Scan(fs, sha, paths[1..])
  }

  predicate ByPath(a: Line, b: Line) {
    Less(a.path.name, b.path.name)
  }

  /** Each line ends in a line feed. */
  function Text(lines: seq<Line>): string {
    if lines == [] then ""
    else lines[0].path.name + ":" + lines[0].digest.hex + "\n" + Text(lines[1..])
  }

  function Summary(sha: string -> Digest, lines: seq<Line>): string {
    if lines == [] then "" else sha(Text(StableSort(ByPath, lines))).hex
  }

  function ChecksumOf(fs: Path -> FileState, sha: string -> Digest, paths: seq<Path>): Result<string, Error> {
    match Scan(fs, sha, paths)
    case Failure(e) => Failure(e)
    case Success(lines) => Success(Summary(sha, lines))
  }

  // ----- The program -----

  /** What the rest of a scan adds to the lines found so far. */
  function After(lines: seq<Line>, rest: Result<seq<Line>, Error>): Result<seq<Line>, Error> {
    match rest
    case Failure(e) => Failure(e)
    case Success(more) => Success(lines + more)
  }

  lemma ScanStep(fs: Path -> FileState, sha: string -> Digest, paths: seq<Path>, i: nat, lines: seq<Line>)
    requires i < |paths|
    ensures var rest, more := Scan(fs, sha, paths[i..]), Scan(fs, sha, paths[i + 1..]);
      After(lines, rest) ==
        match fs(paths[i])
        case StatFails => Failure(StatError(paths[i]))
        case Unreadable => Failure(ReadError(paths[i]))
        case Regular(data) => After(lines + [Line(paths[i], sha(data))], more)
        case _ => After(lines, more)
  {
    assert paths[i..][0] == paths[i] && paths[i..][1..] == paths[i + 1..];
    if fs(paths[i]).Regular? {
      var more := Scan(fs, sha, paths[i + 1..]);
      if more.Success? {
        assert lines + ([Line(paths[i], sha(fs(paths[i]).data))] + more.value)
            == lines + [Line(paths[i], sha(fs(paths[i]).data))] + more.value;
      }
    }
  }

  method ComputeChecksum(fs: Path -> FileState, sha: string -> Digest, paths: seq<Path>)
    returns (r: Result<string, Error>)
    ensures r == ChecksumOf(fs, sha, paths)
  {
    var entries: seq<Line> := [];
    ghost var all := Scan(fs, sha, paths);
    assert paths[0..] == paths;
    assert all.Success? ==> [] + all.value == all.value;
    for i := 0 to |paths|
      invariant Scan(fs, sha, paths) == After(entries, Scan(fs, sha, paths[i..]))
    {
      ScanStep(fs, sha, paths, i, entries);
      match fs(paths[i]) {
        case Missing => continue;
        case StatFails => return Failure(StatError(paths[i]));
        case Special => continue;
        case Unreadable => return Failure(ReadError(paths[i]));
        case Regular(data) => entries := entries + [Line(paths[i], sha(data))];
      }
    }
    assert entries + [] == entries;
    if entries == [] {
      return Success("");
    }
    var sorted := StableSort(ByPath, entries);
    return Success(sha(Text(sorted)).hex);
  }

  // ----- What the checksum depends on -----

  lemma {:induction false} ScanFailsIff(fs: Path -> FileState, sha: string -> Digest, paths: seq<Path>)
    ensures Scan(fs, sha, paths).Failure? <==> exists p :: p in paths && IsBad(fs(p))
  {
    if paths != [] {
      ScanFailsIff(fs, sha, paths[1..]);
      assert paths == [paths[0]] + paths[1..];
      assert IsBad(fs(paths[0])) ==> paths[0] in paths;
    }
  }

  /** How often a line is found: as often as its path was given, if that file has its digest. */
  lemma {:induction false} LineCount(fs: Path -> FileState, sha: string -> Digest, paths: seq<Path>, l: Line)
    requires Scan(fs, sha, paths).Success?
    ensures multiset(Scan(fs, sha, paths).value)[l]
         == if fs(l.path).Regular? && sha(fs(l.path).data) == l.digest then multiset(paths)[l.path] else 0
  {
    if paths != [] {
      LineCount(fs, sha, paths[1..], l);
      assert paths == [paths[0]] + paths[1..];
    }
  }

  lemma SameFirst(s: seq<Line>, t: seq<Line>)
    requires s != [] && t != [] && Sorted(ByPath, s) && Sorted(ByPath, t) && s[0] in t && t[0] in s
    ensures s[0].path == t[0].path
  {
    var i :| 0 <= i < |s| && s[i] == t[0];
    var j :| 0 <= j < |t| && t[j] == s[0];
    LessIsIrreflexive(s[0].path.name);
    assert !ByPath(s[i], s[0]) && !ByPath(t[j], t[0]);
    LessIsTotal(s[0].path.name, t[0].path.name);
  }

  /** One digest per path. */
  ghost predicate Functional(s: seq<Line>) {
    forall x, y :: x in s && y in s && x.path == y.path ==> x == y
  }

  lemma {:induction false} SortedIsDetermined(s: seq<Line>, t: seq<Line>)
    requires multiset(s) == multiset(t) && Sorted(ByPath, s) && Sorted(ByPath, t) && Functional(s)
    ensures s == t
  {
    assert |s| == |multiset(s)| && |t| == |multiset(t)|;
    if s != [] {
      assert s[0] in multiset(t) && t[0] in multiset(s);
      SameFirst(s, t);
      assert s[0] == t[0];
      SameTails(s, t);
      SortedIsDetermined(s[1..], t[1..]);
      assert s == [s[0]] + s[1..] && t == [t[0]] + t[1..];
    }
  }

  lemma SameTails(s: seq<Line>, t: seq<Line>)
    requires s != [] && t != [] && multiset(s) == multiset(t) && s[0] == t[0]
    ensures multiset(s[1..]) == multiset(t[1..])
  {
    assert s == [s[0]] + s[1..] && t == [t[0]] + t[1..];
    assert multiset(s[1..]) == multiset(s) - multiset{s[0]} && multiset(t[1..]) == multiset(t) - multiset{t[0]};
  }

  lemma ByPathIsStrictWeak()
    ensures StrictWeakOrder(ByPath)
  {
    LessIsStrictWeak();
  }

  lemma SortSorts(s: seq<Line>)
    ensures Sorted(ByPath, StableSort(ByPath, s))
  {
    ByPathIsStrictWeak();
    StableSortSorts(ByPath, s);
  }

  lemma SortIsDetermined(s: seq<Line>, t: seq<Line>)
    requires multiset(s) == multiset(t) && Functional(s)
    ensures StableSort(ByPath, s) == StableSort(ByPath, t)
  {
    SortSorts(s);
    SortSorts(t);
    forall x | x in StableSort(ByPath, s)
      ensures x in s
    {
      assert x in multiset(StableSort(ByPath, s));
    }
    SortedIsDetermined(StableSort(ByPath, s), StableSort(ByPath, t));
  }

  lemma ScanIsFunctional(fs: Path -> FileState, sha: string -> Digest, paths: seq<Path>)
    requires Scan(fs, sha, paths).Success?
    ensures Functional(Scan(fs, sha, paths).value)
  {
    var lines := Scan(fs, sha, paths).value;
    forall x | x in lines
      ensures fs(x.path).Regular? && sha(fs(x.path).data) == x.digest
    {
      assert x in multiset(lines);
      LineCount(fs, sha, paths, x);
    }
  }

  /**
   Over one file system the order of the paths does not matter: either both lists give the
   same checksum, or both fail. Which path a failure names does depend on the order.
   */
  lemma OrderDoesNotMatter(fs: Path -> FileState, sha: string -> Digest, p: seq<Path>, q: seq<Path>)
    requires multiset(p) == multiset(q)
    ensures ChecksumOf(fs, sha, p) == ChecksumOf(fs, sha, q)
         || (ChecksumOf(fs, sha, p).Failure? && ChecksumOf(fs, sha, q).Failure?)
  {
    ScanFailsIff(fs, sha, p);
    ScanFailsIff(fs, sha, q);
    forall x
      ensures x in p <==> x in q
    {
      assert x in p <==> x in multiset(p);
      assert x in q <==> x in multiset(q);
    }
    if Scan(fs, sha, p).Success? && Scan(fs, sha, q).Success? {
      var s, t := Scan(fs, sha, p).value, Scan(fs, sha, q).value;
      forall l
        ensures multiset(s)[l] == multiset(t)[l]
      {
        LineCount(fs, sha, p, l);
        LineCount(fs, sha, q, l);
      }
      assert multiset(s) == multiset(t);
      assert |multiset(s)| == |s| && |multiset(t)| == |t|;
      ScanIsFunctional(fs, sha, p);
      SortIsDetermined(s, t);
    }
  }

  // ----- What an error depends on -----

  function ErrorAt(fs: Path -> FileState, p: Path): Error {
    if fs(p).StatFails? then StatError(p) else ReadError(p)
  }

  /** The first path of the list that cannot be read. */
  function FirstBad(fs: Path -> FileState, paths: seq<Path>): (r: Option<Path>)
    ensures r.Some? ==> r.value in paths && IsBad(fs(r.value))
  {
    if paths == [] then None
    else if IsBad(fs(paths[0])) then Some(paths[0])
    else FirstBad(fs, paths[1..])
  }

  lemma {:induction false} ErrorNamesFirst(fs: Path -> FileState, sha: string -> Digest, paths: seq<Path>)
    ensures Scan(fs, sha, paths).Success? <==> FirstBad(fs, paths).None?
    ensures FirstBad(fs, paths).Some? ==>
              ChecksumOf(fs, sha, paths) == Failure(ErrorAt(fs, FirstBad(fs, paths).value))
  {
    if paths != [] {
      ErrorNamesFirst(fs, sha, paths[1..]);
    }
  }

  /** Two different bad paths: the order decides which one the error names. */
  lemma ErrorDependsOnOrder(fs: Path -> FileState, sha: string -> Digest, x: Path, y: Path)
    requires x != y && IsBad(fs(x)) && IsBad(fs(y))
    ensures ChecksumOf(fs, sha, [x, y]) != ChecksumOf(fs, sha, [y, x])
  {
    ErrorNamesFirst(fs, sha, [x, y]);
    ErrorNamesFirst(fs, sha, [y, x]);
  }

  ghost predicate SameForAllOrders(fs: Path -> FileState, sha: string -> Digest, p: seq<Path>) {
    forall q: seq<Path> :: multiset(q) == multiset(p) ==> ChecksumOf(fs, sha, q) == ChecksumOf(fs, sha, p)
  }

  /** All bad paths of the list are one and the same. */
  ghost predicate OneBadPath(fs: Path -> FileState, p: seq<Path>) {
    forall x, y :: x in p && y in p && IsBad(fs(x)) && IsBad(fs(y)) ==> x == y
  }

  lemma SameMembers(p: seq<Path>, q: seq<Path>, x: Path)
    requires multiset(p) == multiset(q)
    ensures x in p <==> x in q
  {
    assert x in p <==> x in multiset(p);
    assert x in q <==> x in multiset(q);
  }

  /** The list with its entry at i in front. */
  function Fronted(p: seq<Path>, i: nat): seq<Path>
    requires i < |p|
  {
    [p[i]] + (p[..i] + p[i + 1..])
  }

  lemma FrontedPermutes(p: seq<Path>, i: nat)
    requires i < |p|
    ensures multiset(Fronted(p, i)) == multiset(p)
  {
    assert p == p[..i] + [p[i]] + p[i + 1..];
  }

  lemma FrontedFails(fs: Path -> FileState, sha: string -> Digest, p: seq<Path>, i: nat)
    requires i < |p| && IsBad(fs(p[i]))
    ensures ChecksumOf(fs, sha, Fronted(p, i)) == Failure(ErrorAt(fs, p[i]))
  {
    ErrorNamesFirst(fs, sha, Fronted(p, i));
  }

  /** Exactly when every order of the paths gives the same result: all bad paths are one and the same. */
  lemma SameForAllOrdersIff(fs: Path -> FileState, sha: string -> Digest, p: seq<Path>)
    ensures SameForAllOrders(fs, sha, p) <==> OneBadPath(fs, p)
  {
    if OneBadPath(fs, p) {
      forall q: seq<Path> | multiset(q) == multiset(p)
        ensures ChecksumOf(fs, sha, q) == ChecksumOf(fs, sha, p)
      {
        OneBadPathSuffices(fs, sha, p, q);
      }
    }
    if SameForAllOrders(fs, sha, p) {
      forall x, y | x in p && y in p && IsBad(fs(x)) && IsBad(fs(y))
        ensures x == y
      {
        var i :| 0 <= i < |p| && p[i] == x;
        var j :| 0 <= j < |p| && p[j] == y;
        FrontedPermutes(p, i);
        FrontedPermutes(p, j);
        FrontedFails(fs, sha, p, i);
        FrontedFails(fs, sha, p, j);
      }
    }
  }

  lemma OneBadPathSuffices(fs: Path -> FileState, sha: string -> Digest, p: seq<Path>, q: seq<Path>)
    requires OneBadPath(fs, p) && multiset(q) == multiset(p)
    ensures ChecksumOf(fs, sha, q) == ChecksumOf(fs, sha, p)
  {
    OrderDoesNotMatter(fs, sha, q, p);
    ErrorNamesFirst(fs, sha, p);
    ErrorNamesFirst(fs, sha, q);
    if FirstBad(fs, q).Some? && FirstBad(fs, p).Some? {
      SameMembers(p, q, FirstBad(fs, q).value);
    }
  }

  /** Missing and special files leave no trace. */
  lemma {:induction false} OnlyRegularCount(fs: Path -> FileState, sha: string -> Digest, paths: seq<Path>)
    requires forall p :: p in paths ==> !IsBad(fs(p))
    ensures Scan(fs, sha, paths) == Scan(fs, sha, Filter((p: Path) => fs(p).Regular?, paths))
  {
    var regular := (p: Path) => fs(p).Regular?;
    FilterAgree((p: Path) => fs(p).Regular?, regular, paths);
    if paths != [] {
      assert paths[0] in paths && paths == [paths[0]] + paths[1..];
      OnlyRegularCount(fs, sha, paths[1..]);
      FilterAgree((p: Path) => fs(p).Regular?, regular, paths[1..]);
      FilterCons(regular, paths[0], paths[1..]);
      if regular(paths[0]) {
        assert ([paths[0]] + Filter(regular, paths[1..]))[1..] == Filter(regular, paths[1..]);
      }
    }
  }

  // ----- The text that is hashed -----

  /** One line for each file: its path, a colon, its digest, and a line feed. */
  lemma {:induction false} TextInLines(a: seq<Line>, b: seq<Line>, l: Line)
    ensures Text(a + b) == Text(a) + Text(b)
    ensures Text([l]) == l.path.name + ":" + l.digest.hex + "\n"
  {
    var t := l.path.name + ":" + l.digest.hex + "\n";
    assert [l][1..] == [] && Text([]) == "" && t + "" == t;
    if a == [] {
      assert a + b == b;
    } else {
      TextInLines(a[1..], b, l);
      assert (a + b)[1..] == a[1..] + b;
      var first := a[0].path.name + ":" + a[0].digest.hex + "\n";
      assert first + (Text(a[1..]) + Text(b)) == (first + Text(a[1..])) + Text(b);
    }
  }

  lemma SortOne(l: Line)
    ensures StableSort(ByPath, [l]) == [l]
  {
    var none: seq<Line> := [];
    assert [l] + none == [l];
    SortCons(ByPath, l, none);
  }

  /** The checksum of one readable file, and of none. */
  lemma ChecksumOfOne(fs: Path -> FileState, sha: string -> Digest, p: Path, data: string)
    requires fs(p) == Regular(data)
    ensures ChecksumOf(fs, sha, [p]) == Success(sha(p.name + ":" + sha(data).hex + "\n").hex)
    ensures ChecksumOf(fs, sha, []) == Success("")
  {
    var l := Line(p, sha(data));
    var none: seq<Line> := [];
    assert [p][1..] == [] && [l] + none == [l];
    assert Scan(fs, sha, [p]) == Success([l]);
    TextInLines(none, none, l);
    SortOne(l);
  }
}
