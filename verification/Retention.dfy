/** Pruning of old backups (dxrk/backup.py). */
module Retention {
  // A listed backup is a directory with a manifest in it. The manifest names a root directory of its
  // own, and that is what a deletion removes, wherever the manifest was found. Which deletions the
  // file system refuses is a parameter.

  import opened Wrappers
  import opened Ordering
  import opened Sequences

  datatype BackupId = BackupId(name: string)

  datatype Part = Part(name: string)

  /** A normalised absolute path. */
  type Path = seq<Part>

  /**
   root is None for a missing or empty root_dir. Creation times count from the smallest
   date, which stands in for a missing one.
   */
  datatype Manifest = Manifest(id: BackupId, root: Option<Path>, created: Option<nat>, pinned: bool)

  /** A manifest and the name of the directory it was found in. */
  datatype Backup = Backup(entry: Part, manifest: Manifest)

  function Time(b: Backup): nat {
    if b.manifest.created.Some? then b.manifest.created.value else 0
  }

  predicate Newer(a: Backup, b: Backup) {
    Time(a) > Time(b)
  }

  predicate IsUnpinned(b: Backup) {
    !b.manifest.pinned
  }

  /** The unpinned backups, newest first; those of one time stay in listing order. */
  function Unpinned(backups: seq<Backup>): seq<Backup> {
    Filter(IsUnpinned, StableSort(Newer, backups))
  }

  function Doomed(retention: int, backups: seq<Backup>): seq<Backup> {
    if retention <= 0 || |Unpinned(backups)| <= retention then [] else Unpinned(backups)[retention..]
  }

  function Spared(retention: int, backups: seq<Backup>): seq<Backup>
    requires retention > 0
  {
    if |Unpinned(backups)| <= retention then Unpinned(backups) else Unpinned(backups)[..retention]
  }

  // ----- Deleting directories -----

  /** The file system as far as deletions go: the backup root, and what it refuses to remove below it. */
  datatype Policy = Policy(base: Path, refuses: Path -> bool)

  predicate MayDelete(policy: Policy, b: Backup) {
    b.manifest.root.Some? && policy.base < b.manifest.root.value && !policy.refuses(b.manifest.root.value)
  }

  predicate Succeeds(policy: Policy, dirs: set<Path>, b: Backup) {
    MayDelete(policy, b) && b.manifest.root.value in dirs
  }

  /** Removing a directory removes everything below it. */
  function AfterDelete(policy: Policy, dirs: set<Path>, b: Backup): set<Path> {
    if Succeeds(policy, dirs, b) then set d | d in dirs && !(b.manifest.root.value <= d) else dirs
  }

  function DirsAfter(policy: Policy, doomed: seq<Backup>, dirs: set<Path>): set<Path> {
    if doomed == [] then dirs
    else AfterDelete(policy, DirsAfter(policy, doomed[..|doomed| - 1], dirs), doomed[|doomed| - 1])
  }

  /** The ids of the deletions that succeed, each after those before it. */
  function Deleted(policy: Policy, doomed: seq<Backup>, dirs: set<Path>): seq<BackupId> {
    if doomed == [] then []
    else
      var init, last := doomed[..|doomed| - 1], doomed[|doomed| - 1];
      Deleted(policy, init, dirs)
      + if Succeeds(policy, DirsAfter(policy, init, dirs), last) then [last.manifest.id] else []
  }

  /** The backups whose directories are there, in listing order. */
  function Present(dir: Path, dirs: set<Path>, backups: seq<Backup>): seq<Backup> {
    Filter((b: Backup) => dir + [b.entry] in dirs, backups)
  }

  /** The root named by b can be removed and is d or contains it. */
  predicate Hits(policy: Policy, dirs: set<Path>, b: Backup, d: Path) {
    Succeeds(policy, dirs, b) && b.manifest.root.value <= d
  }

  ghost predicate IsHit(policy: Policy, dirs: set<Path>, doomed: seq<Backup>, d: Path) {
    exists i :: 0 <= i < |doomed| && Hits(policy, dirs, doomed[i], d)
  }

  lemma HitPrefix(policy: Policy, dirs: set<Path>, doomed: seq<Backup>, d: Path)
    requires doomed != []
    ensures IsHit(policy, dirs, doomed, d) <==>
            IsHit(policy, dirs, doomed[..|doomed| - 1], d) || Hits(policy, dirs, doomed[|doomed| - 1], d)
  {
    var init := doomed[..|doomed| - 1];
    if IsHit(policy, dirs, init, d) {
      var i :| 0 <= i < |init| && Hits(policy, dirs, init[i], d);
      assert Hits(policy, dirs, doomed[i], d);
    }
    if IsHit(policy, dirs, doomed, d) {
      var i :| 0 <= i < |doomed| && Hits(policy, dirs, doomed[i], d);
      assert i < |init| ==> Hits(policy, dirs, init[i], d);
    }
  }

  lemma HitBelow(policy: Policy, dirs: set<Path>, doomed: seq<Backup>, above: Path, d: Path)
    requires IsHit(policy, dirs, doomed, above) && above <= d
    ensures IsHit(policy, dirs, doomed, d)
  {
    var i :| 0 <= i < |doomed| && Hits(policy, dirs, doomed[i], above);
    assert Hits(policy, dirs, doomed[i], d);
  }

  /** A directory is left exactly when no doomed root that was there at the start is it or contains it. */
  lemma {:induction false} DirIsLeftIff(policy: Policy, doomed: seq<Backup>, dirs: set<Path>, d: Path)
    ensures d in DirsAfter(policy, doomed, dirs) <==> d in dirs && !IsHit(policy, dirs, doomed, d)
  {
    if doomed != [] {
      var init, last := doomed[..|doomed| - 1], doomed[|doomed| - 1];
      DirIsLeftIff(policy, init, dirs, d);
      HitPrefix(policy, dirs, doomed, d);
      if MayDelete(policy, last) && last.manifest.root.value <= d {
        var root := last.manifest.root.value;
        DirIsLeftIff(policy, init, dirs, root);
        if IsHit(policy, dirs, init, root) {
          HitBelow(policy, dirs, init, root, d);
        }
      }
    }
  }

  /** Exactly when everything at and below a directory is left: no doomed root that goes is above, at or below it. */
  lemma ContentIsLeftIff(policy: Policy, doomed: seq<Backup>, dirs: set<Path>, home: Path)
    requires home in dirs
    ensures (forall d :: d in dirs && home <= d ==> d in DirsAfter(policy, doomed, dirs)) <==>
            forall i :: 0 <= i < |doomed| && Succeeds(policy, dirs, doomed[i]) ==>
              !(doomed[i].manifest.root.value <= home) && !(home <= doomed[i].manifest.root.value)
  {
    forall d
      ensures d in DirsAfter(policy, doomed, dirs) <==> d in dirs && !IsHit(policy, dirs, doomed, d)
    {
      DirIsLeftIff(policy, doomed, dirs, d);
    }
    forall i | 0 <= i < |doomed| && Succeeds(policy, dirs, doomed[i])
      ensures var root := doomed[i].manifest.root.value;
        IsHit(policy, dirs, doomed, root) && (root <= home ==> IsHit(policy, dirs, doomed, home))
    {
      assert Hits(policy, dirs, doomed[i], doomed[i].manifest.root.value);
      HitBelow(policy, dirs, doomed, doomed[i].manifest.root.value, doomed[i].manifest.root.value);
    }
    forall d, i | home <= d && 0 <= i < |doomed| && Hits(policy, dirs, doomed[i], d)
      ensures doomed[i].manifest.root.value <= home || home <= doomed[i].manifest.root.value
    {
      PrefixesCompare(home, doomed[i].manifest.root.value, d);
    }
  }

  lemma PrefixesCompare(a: Path, b: Path, d: Path)
    requires a <= d && b <= d
    ensures a <= b || b <= a
  {
    assert a == d[..|a|] && b == d[..|b|];
  }

  // ----- The program -----

  class BackupDir {
    const dir: Path
    const policy: Policy
    /** The directory's entries that hold a manifest, in listing order, and the directories on disk. */
    const entries: seq<Backup>
    var dirs: set<Path>

    constructor (dir: Path, policy: Policy, entries: seq<Backup>, dirs: set<Path>)
      ensures this.dir == dir && this.policy == policy && this.entries == entries && this.dirs == dirs
    {
      this.dir, this.policy, this.entries, this.dirs := dir, policy, entries, dirs;
    }

    function Listing(): seq<Backup>
      reads this
    {
      Present(dir, dirs, entries)
    }

    /** Returns the ids whose deletion succeeded; a failed deletion is passed over. */
    method Prune(retention: int) returns (deleted: seq<BackupId>)
      modifies this
      ensures dirs == DirsAfter(policy, Doomed(retention, old(Listing())), old(dirs))
      ensures deleted == Deleted(policy, Doomed(retention, old(Listing())), old(dirs))
    {
      deleted := [];
      if retention <= 0 {
        return;
      }
      var manifests := StableSort(Newer, Listing());
      var unpinned := Filter(IsUnpinned, manifests);
      if |unpinned| <= retention {
        return;
      }
      var toDelete := unpinned[retention..];
      for i := 0 to |toDelete|
        invariant dirs == DirsAfter(policy, toDelete[..i], old(dirs))
        invariant deleted == Deleted(policy, toDelete[..i], old(dirs))
      {
        assert toDelete[..i + 1][..i] == toDelete[..i];
        if Succeeds(policy, dirs, toDelete[i]) {
          var root := toDelete[i].manifest.root.value;
          dirs := set d | d in dirs && !(root <= d);
          deleted := deleted + [toDelete[i].manifest.id];
        } else {
          assert deleted + [] == deleted;
        }
      }
      assert toDelete[..|toDelete|] == toDelete;
    }
  }

  // ----- What is never touched -----

  lemma HitsLieBelow(policy: Policy, dirs: set<Path>, b: Backup, d: Path)
    ensures Hits(policy, dirs, b, d) ==> policy.base < d && !policy.refuses(b.manifest.root.value)
  {
  }

  /** Only what lies below the backup root can go; the root itself and everything outside stay. */
  lemma OutsideStays(policy: Policy, doomed: seq<Backup>, dirs: set<Path>, d: Path)
    requires d in dirs && !(policy.base < d)
    ensures d in DirsAfter(policy, doomed, dirs)
  {
    DirIsLeftIff(policy, doomed, dirs, d);
    forall i | 0 <= i < |doomed|
      ensures !Hits(policy, dirs, doomed[i], d)
    {
      HitsLieBelow(policy, dirs, doomed[i], d);
    }
  }

  /** What the file system refuses to remove is left, unless it goes with something above it. */
  lemma RefusedStays(policy: Policy, doomed: seq<Backup>, dirs: set<Path>, d: Path)
    requires d in dirs && forall above :: above <= d && above in dirs && policy.base < above ==> policy.refuses(above)
    ensures d in DirsAfter(policy, doomed, dirs)
  {
    DirIsLeftIff(policy, doomed, dirs, d);
  }

  // ----- Which backups are lost -----

  lemma PresentMember(dir: Path, dirs: set<Path>, backups: seq<Backup>, b: Backup)
    ensures b in Present(dir, dirs, backups) <==> b in backups && dir + [b.entry] in dirs
  {
    FilterMember((b: Backup) => dir + [b.entry] in dirs, backups, b);
  }

  lemma UnpinnedMember(backups: seq<Backup>, b: Backup)
    ensures b in Unpinned(backups) <==> b in backups && !b.manifest.pinned
  {
    var sorted := StableSort(Newer, backups);
    FilterMember(IsUnpinned, sorted, b);
    assert b in sorted <==> b in multiset(sorted);
    assert b in backups <==> b in multiset(backups);
  }

  lemma DoomedAreUnpinned(retention: int, backups: seq<Backup>, b: Backup)
    requires b in Doomed(retention, backups)
    ensures b in backups && !b.manifest.pinned && retention > 0
  {
    assert b in Unpinned(backups)[retention..];
    UnpinnedMember(backups, b);
  }

  /**
   Exactly which listed backups are lost: those whose directory a doomed manifest names, or
   names something that contains it, where the file system lets it go. Being pinned does
   not protect a backup; that its own manifest is not doomed is all that pinning does.
   */
  lemma LostIff(policy: Policy, dir: Path, dirs: set<Path>, entries: seq<Backup>, retention: int, b: Backup)
    requires b in Present(dir, dirs, entries)
    ensures var doomed := Doomed(retention, Present(dir, dirs, entries));
      && (b !in Present(dir, DirsAfter(policy, doomed, dirs), entries)
          <==> IsHit(policy, dirs, doomed, dir + [b.entry]))
      && (b.manifest.pinned || retention <= 0 ==> b !in doomed)
  {
    var doomed := Doomed(retention, Present(dir, dirs, entries));
    PresentMember(dir, dirs, entries, b);
    PresentMember(dir, DirsAfter(policy, doomed, dirs), entries, b);
    DirIsLeftIff(policy, doomed, dirs, dir + [b.entry]);
    if b in doomed {
      DoomedAreUnpinned(retention, Present(dir, dirs, entries), b);
    }
  }

  /** Nothing is removed when the retention is not positive. */
  lemma NoRetentionNoLoss(policy: Policy, dirs: set<Path>, backups: seq<Backup>, retention: int)
    requires retention <= 0
    ensures DirsAfter(policy, Doomed(retention, backups), dirs) == dirs
    ensures Deleted(policy, Doomed(retention, backups), dirs) == []
  {
  }

  const HOME: Path := [Part("b")]
  const ORIGINAL := Backup(Part("p"), Manifest(BackupId("p"), Some(HOME + [Part("p")]), Some(1), true))
  const COPY := Backup(Part("c"), Manifest(BackupId("p"), Some(HOME + [Part("p")]), Some(1), false))
  const LATEST := Backup(Part("n"), Manifest(BackupId("n"), Some(HOME + [Part("n")]), Some(2), false))

  lemma UnpinnedCopies()
    ensures Filter(IsUnpinned, [ORIGINAL, COPY, LATEST]) == [COPY, LATEST]
  {
    assert [ORIGINAL, COPY, LATEST] == [ORIGINAL] + ([COPY] + [LATEST]);
    FilterCons(IsUnpinned, ORIGINAL, [COPY] + [LATEST]);
    FilterCons(IsUnpinned, COPY, [LATEST]);
    FilterOne(IsUnpinned, LATEST);
  }

  lemma LatestComesFirst()
    ensures StableSort(Newer, [COPY, LATEST]) == [LATEST, COPY]
  {
    var none: seq<Backup> := [];
    SortCons(Newer, LATEST, none);
    assert [LATEST] + none == [LATEST];
    SortCons(Newer, COPY, [LATEST]);
    assert [COPY] + [LATEST] == [COPY, LATEST];
    InsertBehind(Newer, LATEST, COPY, none);
  }

  lemma CopyIsDoomed()
    ensures Doomed(1, [ORIGINAL, COPY, LATEST]) == [COPY]
  {
    var all := [ORIGINAL, COPY, LATEST];
    assert StrictWeakOrder(Newer);
    SortFilter(Newer, IsUnpinned, all);
    UnpinnedCopies();
    LatestComesFirst();
    assert Unpinned(all) == [LATEST, COPY];
  }

  /**
   A backup directory that was copied before the original was pinned: pruning the copy
   removes the pinned original, and the copy itself stays.
   */
  lemma CopyDeletesPinned()
    ensures var policy := Policy(HOME, (d: Path) => false);
            var entries := [ORIGINAL, COPY, LATEST];
            var dirs := {HOME + [Part("p")], HOME + [Part("c")], HOME + [Part("n")]};
            var after := DirsAfter(policy, Doomed(1, Present(HOME, dirs, entries)), dirs);
      && ORIGINAL.manifest.pinned && ORIGINAL in Present(HOME, dirs, entries)
      && ORIGINAL !in Present(HOME, after, entries) && COPY in Present(HOME, after, entries)
  {
    var policy := Policy(HOME, (d: Path) => false);
    var entries := [ORIGINAL, COPY, LATEST];
    var p, c, n := HOME + [Part("p")], HOME + [Part("c")], HOME + [Part("n")];
    var dirs := {p, c, n};
    assert Part("p").name[0] != Part("c").name[0];
    assert p[1] != c[1];
    FilterAll((b: Backup) => HOME + [b.entry] in dirs, entries);
    CopyIsDoomed();
    assert [COPY][..0] == [];
    assert DirsAfter(policy, [], dirs) == dirs;
    var after := DirsAfter(policy, [COPY], dirs);
    assert Succeeds(policy, dirs, COPY);
    assert c in after && p !in after;
    PresentMember(HOME, after, entries, ORIGINAL);
    PresentMember(HOME, after, entries, COPY);
  }

  // ----- When manifests name their own directories -----

  /** Directory entries have different names. */
  ghost predicate DifferentEntries(backups: seq<Backup>) {
    forall i, j :: 0 <= i < j < |backups| ==> backups[i].entry != backups[j].entry
  }

  /** What the program writes into a manifest: the directory it lies in. */
  ghost predicate NamesItself(dir: Path, b: Backup) {
    b.manifest.root == Some(dir + [b.entry])
  }

  ghost predicate NameThemselves(dir: Path, backups: seq<Backup>) {
    forall b :: b in backups ==> NamesItself(dir, b)
  }

  /** What is left of a listing when the doomed backups go, except the refused ones. */
  function Survivors(policy: Policy, doomed: seq<Backup>, backups: seq<Backup>): seq<Backup> {
    Filter((b: Backup) => b !in doomed || !MayDelete(policy, b), backups)
  }

  lemma EntryDetermines(backups: seq<Backup>, a: Backup, b: Backup)
    requires DifferentEntries(backups) && a in backups && b in backups && a.entry == b.entry
    ensures a == b
  {
  }

  lemma SiblingPaths(dir: Path, a: Part, b: Part)
    ensures dir + [a] <= dir + [b] <==> a == b
  {
    assert (dir + [a])[|dir|] == a && (dir + [b])[|dir|] == b;
  }

  lemma HitIffDoomed(policy: Policy, dir: Path, dirs: set<Path>, backups: seq<Backup>, doomed: seq<Backup>, b: Backup)
    requires DifferentEntries(backups) && b in backups && NameThemselves(dir, doomed)
    requires forall x :: x in doomed ==> x in backups && dir + [x.entry] in dirs
    ensures IsHit(policy, dirs, doomed, dir + [b.entry]) <==> b in doomed && MayDelete(policy, b)
  {
    if IsHit(policy, dirs, doomed, dir + [b.entry]) {
      var i :| 0 <= i < |doomed| && Hits(policy, dirs, doomed[i], dir + [b.entry]);
      assert doomed[i] in doomed && NamesItself(dir, doomed[i]);
      SiblingPaths(dir, doomed[i].entry, b.entry);
      EntryDetermines(backups, doomed[i], b);
    }
    if b in doomed && MayDelete(policy, b) {
      var i :| 0 <= i < |doomed| && doomed[i] == b;
      assert NamesItself(dir, b);
      assert Hits(policy, dirs, doomed[i], dir + [b.entry]);
    }
  }

  /** When the doomed manifests name their own directories, exactly they go, except the refused ones. */
  lemma PruneRemovesDoomed(policy: Policy, dir: Path, dirs: set<Path>, entries: seq<Backup>, retention: int)
    requires DifferentEntries(entries)
    requires NameThemselves(dir, Doomed(retention, Present(dir, dirs, entries)))
    ensures var listed := Present(dir, dirs, entries);
            var doomed := Doomed(retention, listed);
      Present(dir, DirsAfter(policy, doomed, dirs), entries) == Survivors(policy, doomed, listed)
  {
    var listed := Present(dir, dirs, entries);
    var doomed := Doomed(retention, listed);
    var after := DirsAfter(policy, doomed, dirs);
    var present := (b: Backup) => dir + [b.entry] in dirs;
    var left := (b: Backup) => dir + [b.entry] in after;
    var spared := (b: Backup) => b !in doomed || !MayDelete(policy, b);
    forall x | x in doomed
      ensures x in entries && dir + [x.entry] in dirs
    {
      DoomedAreUnpinned(retention, listed, x);
      PresentMember(dir, dirs, entries, x);
    }
    forall b | b in entries
      ensures left(b) == (spared(b) && present(b))
    {
      DirIsLeftIff(policy, doomed, dirs, dir + [b.entry]);
      HitIffDoomed(policy, dir, dirs, entries, doomed, b);
    }
    FilterTwice(spared, present, left, entries);
    FilterAgree(left, (b: Backup) => dir + [b.entry] in after, entries);
    FilterAgree(present, (b: Backup) => dir + [b.entry] in dirs, entries);
    FilterAgree(spared, (b: Backup) => b !in doomed || !MayDelete(policy, b), listed);
  }

  function IdOf(b: Backup): BackupId {
    b.manifest.id
  }

  function Deletable(policy: Policy): Backup -> bool {
    (b: Backup) => MayDelete(policy, b)
  }

  /** The ids that come back are those of the doomed backups that may be deleted, in order. */
  lemma {:induction false} DeletedIds(policy: Policy, dir: Path, dirs: set<Path>, backups: seq<Backup>)
    requires DifferentEntries(backups) && NameThemselves(dir, backups)
    requires forall b :: b in backups ==> dir + [b.entry] in dirs
    ensures Deleted(policy, backups, dirs)
         == Map(IdOf, Filter(Deletable(policy), backups))
  {
    var may := Deletable(policy);
    if backups == [] {
      assert Filter(may, backups) == [];
    } else {
      var init, last := backups[..|backups| - 1], backups[|backups| - 1];
      DeletedIds(policy, dir, dirs, init);
      assert NamesItself(dir, last);
      DirIsLeftIff(policy, init, dirs, dir + [last.entry]);
      LastIsNotHit(policy, dir, dirs, backups);
      assert backups == init + [last];
      FilterAppend(may, init, [last]);
      FilterOne(may, last);
      if may(last) {
        MapSnoc(IdOf, Filter(may, init), last);
      } else {
        assert Filter(may, init) + [] == Filter(may, init);
      }
    }
  }

  lemma LastIsNotHit(policy: Policy, dir: Path, dirs: set<Path>, backups: seq<Backup>)
    requires backups != [] && DifferentEntries(backups) && NameThemselves(dir, backups)
    ensures var init, last := backups[..|backups| - 1], backups[|backups| - 1];
      !IsHit(policy, dirs, init, dir + [last.entry])
  {
    var init, last := backups[..|backups| - 1], backups[|backups| - 1];
    forall i | 0 <= i < |init|
      ensures !Hits(policy, dirs, init[i], dir + [last.entry])
    {
      assert init[i] == backups[i] && backups[i] in backups && NamesItself(dir, backups[i]);
      SiblingPaths(dir, backups[i].entry, last.entry);
    }
  }

  // ----- The laws of retention -----

  lemma {:induction false} FilterSorted(p: Backup -> bool, s: seq<Backup>)
    requires Sorted(Newer, s)
    ensures Sorted(Newer, Filter(p, s))
  {
    if s != [] {
      FilterSorted(p, s[1..]);
      forall x | x in Filter(p, s[1..])
        ensures !Newer(x, s[0])
      {
        FilterMember(p, s[1..], x);
      }
    }
  }

  lemma UnpinnedSorted(backups: seq<Backup>)
    ensures Sorted(Newer, Unpinned(backups))
  {
    assert StrictWeakOrder(Newer);
    StableSortSorts(Newer, backups);
    FilterSorted(IsUnpinned, StableSort(Newer, backups));
  }

  /** Nothing doomed is newer than an unpinned backup that is not. */
  lemma NewestAreSpared(retention: int, backups: seq<Backup>, gone: Backup, spared: Backup)
    requires gone in Doomed(retention, backups)
    requires spared in backups && !spared.manifest.pinned && spared !in Doomed(retention, backups)
    ensures !Newer(gone, spared)
    ensures gone.manifest.created.Some? && gone.manifest.created.value > 0 ==>
              spared.manifest.created.Some? && spared.manifest.created.value >= gone.manifest.created.value
  {
    var unpinned := Unpinned(backups);
    UnpinnedSorted(backups);
    UnpinnedMember(backups, spared);
    var i :| 0 <= i < |unpinned| && unpinned[i] == spared;
    var j :| 0 <= j < |unpinned[retention..]| && unpinned[retention..][j] == gone;
    forall k | retention <= k < |unpinned|
      ensures unpinned[k] in unpinned[retention..]
    {
      assert unpinned[retention..][k - retention] == unpinned[k];
    }
    assert unpinned[retention + j] == gone;
  }

  lemma PresentDistinct(dir: Path, dirs: set<Path>, entries: seq<Backup>)
    requires DifferentEntries(entries)
    ensures Distinct(Unpinned(Present(dir, dirs, entries)))
  {
    assert Distinct(entries);
    FilterDistinct((b: Backup) => dir + [b.entry] in dirs, entries);
    var listed := Present(dir, dirs, entries);
    DistinctFromMultiset(listed, StableSort(Newer, listed));
    FilterDistinct(IsUnpinned, StableSort(Newer, listed));
  }

  lemma UnpinnedOfSurvivors(policy: Policy, doomed: seq<Backup>, backups: seq<Backup>)
    ensures Unpinned(Survivors(policy, doomed, backups)) == Survivors(policy, doomed, Unpinned(backups))
  {
    var survives := (b: Backup) => b !in doomed || !MayDelete(policy, b);
    var both := (b: Backup) => (b !in doomed || !MayDelete(policy, b)) && !b.manifest.pinned;
    var sorted := StableSort(Newer, backups);
    assert StrictWeakOrder(Newer);
    SortFilter(Newer, survives, backups);
    FilterTwice(IsUnpinned, survives, both, sorted);
    FilterTwice(survives, IsUnpinned, both, sorted);
    FilterAgree(survives, (b: Backup) => b !in doomed || !MayDelete(policy, b), backups);
    FilterAgree(survives, (b: Backup) => b !in doomed || !MayDelete(policy, b), Unpinned(backups));
  }

  function Refused(policy: Policy, doomed: seq<Backup>): seq<Backup> {
    Filter((b: Backup) => !MayDelete(policy, b), doomed)
  }

  lemma SpareHead(policy: Policy, head: seq<Backup>, tail: seq<Backup>)
    requires Distinct(head + tail)
    ensures Survivors(policy, tail, head + tail) == head + Refused(policy, tail)
  {
    var survives := (b: Backup) => b !in tail || !MayDelete(policy, b);
    FilterAgree((b: Backup) => b !in tail || !MayDelete(policy, b), survives, head + tail);
    FilterAppend(survives, head, tail);
    forall b | b in head
      ensures b !in tail
    {
      var i :| 0 <= i < |head| && head[i] == b;
      forall j | 0 <= j < |tail|
        ensures tail[j] != b
      {
        assert (head + tail)[i] == b && (head + tail)[|head| + j] == tail[j];
      }
    }
    FilterAll(survives, head);
    FilterAgree(survives, (b: Backup) => !MayDelete(policy, b), tail);
  }

  /** The doomed backups are the unpinned ones beyond the retention count; the others are spared. */
  lemma SparedCount(retention: int, backups: seq<Backup>)
    requires retention > 0
    ensures Unpinned(backups) == Spared(retention, backups) + Doomed(retention, backups)
    ensures |Spared(retention, backups)|
         == if |Unpinned(backups)| < retention then |Unpinned(backups)| else retention
  {
  }

  lemma UnpinnedSurvivors(policy: Policy, retention: int, backups: seq<Backup>)
    requires retention > 0 && Distinct(Unpinned(backups))
    ensures var doomed := Doomed(retention, backups);
      Unpinned(Survivors(policy, doomed, backups)) == Spared(retention, backups) + Refused(policy, doomed)
  {
    var doomed := Doomed(retention, backups);
    SparedCount(retention, backups);
    UnpinnedOfSurvivors(policy, doomed, backups);
    SpareHead(policy, Spared(retention, backups), doomed);
  }

  /** The unpinned backups that a prune leaves: the spared ones and then the refused ones. */
  lemma UnpinnedAfterPrune(policy: Policy, dir: Path, dirs: set<Path>, entries: seq<Backup>, retention: int)
    requires DifferentEntries(entries) && retention > 0
    requires NameThemselves(dir, Doomed(retention, Present(dir, dirs, entries)))
    ensures var listed := Present(dir, dirs, entries);
            var doomed := Doomed(retention, listed);
      Unpinned(Present(dir, DirsAfter(policy, doomed, dirs), entries))
      == Spared(retention, listed) + Refused(policy, doomed)
  {
    PruneRemovesDoomed(policy, dir, dirs, entries, retention);
    PresentDistinct(dir, dirs, entries);
    UnpinnedSurvivors(policy, retention, Present(dir, dirs, entries));
  }

  /** A second prune dooms exactly the backups whose deletion was refused the first time. */
  lemma SecondPrune(policy: Policy, dir: Path, dirs: set<Path>, entries: seq<Backup>, retention: int)
    requires DifferentEntries(entries)
    requires NameThemselves(dir, Doomed(retention, Present(dir, dirs, entries)))
    ensures var doomed := Doomed(retention, Present(dir, dirs, entries));
      Doomed(retention, Present(dir, DirsAfter(policy, doomed, dirs), entries)) == Refused(policy, doomed)
  {
    if retention > 0 {
      UnpinnedAfterPrune(policy, dir, dirs, entries, retention);
    }
  }

  /** When nothing is refused, a second prune deletes nothing, and the retention count is met. */
  lemma PruneIsIdempotent(policy: Policy, dir: Path, dirs: set<Path>, entries: seq<Backup>, retention: int)
    requires DifferentEntries(entries) && retention > 0
    requires NameThemselves(dir, Doomed(retention, Present(dir, dirs, entries)))
    requires forall b :: b in Doomed(retention, Present(dir, dirs, entries)) ==> MayDelete(policy, b)
    ensures var listed := Present(dir, dirs, entries);
            var after := Present(dir, DirsAfter(policy, Doomed(retention, listed), dirs), entries);
      && Doomed(retention, after) == []
      && |Unpinned(after)| == if |Unpinned(listed)| < retention then |Unpinned(listed)| else retention
  {
    UnpinnedAfterPrune(policy, dir, dirs, entries, retention);
    SecondPrune(policy, dir, dirs, entries, retention);
    FilterNone((b: Backup) => !MayDelete(policy, b), Doomed(retention, Present(dir, dirs, entries)));
  }
}
