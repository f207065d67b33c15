/**
 The parser of unified diffs (dxrk/git.py), on the list of lines.

 How a hunk header's number would be read is a parameter, and turns out not to matter.
 */
module GitDiff {
  import opened LineBlocks
  import opened Sequences
  import opened Wrappers

  datatype DiffFile = DiffFile(path: string, additions: int, deletions: int, content: string)

  datatype DiffStats = DiffStats(filesChanged: int, additions: int, deletions: int)

  predicate IsHeader(line: string) {
    "diff --git " <= line
  }

  /** The lines that never reach a file's content. */
  predicate IsKept(line: string) {
    !("--- " <= line) && !("+++ " <= line)
  }

  predicate IsAdded(line: string) {
    "+" <= line && !("+++" <= line)
  }

  predicate IsRemoved(line: string) {
    "-" <= line && !("---" <= line)
  }

  function Split(s: string): (parts: seq<string>)
    ensures parts != [] && forall i :: 0 <= i < |parts| ==> ' ' !in parts[i]
  {
    if s == [] then [""]
    else
      var rest := Split(s[1..]);
      if s[0] == ' ' then [""] + rest else [[s[0]] + rest[0]] + rest[1..]
  }

  function TrimOne(s: string, prefix: string): string {
    if prefix <= s then s[|prefix|..] else s
  }

  function PathOf(header: string): string {
    var parts := Split(header);
    if |parts| >= 4 then TrimOne(parts[|parts| - 1], "b/") else ""
  }

  function HunkStats(count: string -> int, s: string): (int, int) {
    var parts := Split(s);
    if |parts| < 2 then (0, 0) else (count(TrimOne(parts[0], "+")), count(TrimOne(parts[1], "-")))
  }

  lemma {:induction false} OneWord(s: string)
    requires ' ' !in s
    ensures Split(s) == [s]
  {
    if s != [] {
      OneWord(s[1..]);
      assert s[0] in s && s == [s[0]] + s[1..] && [s[1..]][1..] == [];
    }
  }

  /** A hunk header never adds to the counts, because a part of a split line has no space left to split at. */
  lemma HunkStatsOfPart(count: string -> int, line: string, i: nat)
    requires i < |Split(line)|
    ensures HunkStats(count, Split(line)[i]) == (0, 0)
  {
    OneWord(Split(line)[i]);
  }

  // ----- What a file is: a header line and the lines below it -----

  function Text(lines: seq<string>): string {
    if lines == [] then "" else lines[0] + "\n" + Text(lines[1..])
  }

  function Count(p: string -> bool, lines: seq<string>): nat {
    |Filter(p, lines)|
  }

  function FileOf(block: seq<string>): DiffFile {
    if block == [] then DiffFile("", 0, 0, "")
    else
      var kept := Filter(IsKept, block[1..]);
      DiffFile(PathOf(block[0]), Count(IsAdded, kept), Count(IsRemoved, kept), Text(kept))
  }

  function Files(lines: seq<string>): seq<DiffFile> {
    Map(FileOf, Blocks(IsHeader, Never, lines))
  }

  lemma {:induction false} TextAppend(a: seq<string>, b: seq<string>)
    ensures Text(a + b) == Text(a) + Text(b)
  {
    if a == [] {
      assert a + b == b;
    } else {
      TextAppend(a[1..], b);
      assert (a + b)[1..] == a[1..] + b;
      var x := a[0] + "\n";
      assert x + (Text(a[1..]) + Text(b)) == (x + Text(a[1..])) + Text(b);
    }
  }

  lemma CountCons(p: string -> bool, x: string, lines: seq<string>)
    ensures Count(p, [x] + lines) == (if p(x) then 1 else 0) + Count(p, lines)
  {
    assert ([x] + lines)[1..] == lines;
  }

  lemma CountSnoc(p: string -> bool, lines: seq<string>, x: string)
    ensures Count(p, lines + [x]) == Count(p, lines) + if p(x) then 1 else 0
  {
    FilterAppend(p, lines, [x]);
    FilterOne(p, x);
  }

  /** The loop body for a line that is no header, on the current file. */
  method AddLine(count: string -> int, f: DiffFile, line: string, ghost block: seq<string>) returns (r: DiffFile)
    requires block != [] && f == FileOf(block) && !IsHeader(line)
    ensures r == FileOf(block + [line])
  {
    FileSnoc(block, line);
    assert IsAdded(line) ==> !IsRemoved(line) by {
      assert "+"[0] != "-"[0];
    }
    if "--- " <= line || "+++ " <= line {
      return f;
    }
    r := f;
    if "@@" <= line {
      var parts := Split(line);
      if |parts| >= 3 {
        var (added, deleted) := HunkStats(count, parts[2]);
        HunkStatsOfPart(count, line, 2);
        r := r.(additions := r.additions + added, deletions := r.deletions + deleted);
      }
    }
    r := r.(content := r.content + (line + "\n"));
    if "+" <= line && !("+++" <= line) {
      r := r.(additions := r.additions + 1);
    } else if "-" <= line && !("---" <= line) {
      r := r.(deletions := r.deletions + 1);
    }
  }

  lemma FileSnoc(block: seq<string>, x: string)
    requires block != []
    ensures var f := FileOf(block);
      FileOf(block + [x]) ==
        if !IsKept(x) then f
        else DiffFile(f.path, f.additions + (if IsAdded(x) then 1 else 0),
                      f.deletions + (if IsRemoved(x) then 1 else 0), f.content + (x + "\n"))
  {
    var kept := Filter(IsKept, block[1..]);
    assert (block + [x])[1..] == block[1..] + [x];
    FilterAppend(IsKept, block[1..], [x]);
    FilterOne(IsKept, x);
    if IsKept(x) {
      CountSnoc(IsAdded, kept, x);
      CountSnoc(IsRemoved, kept, x);
      TextAppend(kept, [x]);
      assert Text([x]) == x + "\n" + Text([x][1..]) == x + "\n";
    } else {
      assert kept + [] == kept;
    }
  }

  // ----- The program -----

  /** The finished files and the current one are the files of the lines read so far. */
  ghost predicate Holds(read: seq<string>, files: seq<DiffFile>, cur: Option<DiffFile>) {
    && cur.Some? == Open(IsHeader, Never, read)
    && files + (if cur.Some? then [cur.value] else []) == Files(read)
  }

  lemma HeaderStep(read: seq<string>, files: seq<DiffFile>, cur: Option<DiffFile>, x: string)
    requires Holds(read, files, cur) && IsHeader(x)
    ensures Holds(read + [x], files + (if cur.Some? then [cur.value] else []), Some(DiffFile(PathOf(x), 0, 0, "")))
  {
    StartOpens(IsHeader, Never, read, x);
    assert FileOf([x]) == DiffFile(PathOf(x), 0, 0, "") by {
      assert [x][1..] == [];
    }
    MapSnoc(FileOf, Blocks(IsHeader, Never, read), [x]);
  }

  lemma LineOutside(read: seq<string>, files: seq<DiffFile>, x: string)
    requires Holds(read, files, None) && !IsHeader(x)
    ensures Holds(read + [x], files, None)
  {
    JoinLine(IsHeader, Never, read, x);
  }

  lemma LineInside(read: seq<string>, files: seq<DiffFile>, cur: DiffFile, x: string) returns (block: seq<string>)
    requires Holds(read, files, Some(cur)) && !IsHeader(x)
    ensures block != [] && cur == FileOf(block)
    ensures Holds(read + [x], files, Some(FileOf(block + [x])))
  {
    JoinLine(IsHeader, Never, read, x);
    BlocksAreHeaded(IsHeader, Never, read);
    var blocks := Blocks(IsHeader, Never, read);
    block := MapExtended(FileOf, blocks, x);
    SameSnoc(files, cur, Map(FileOf, blocks[..|blocks| - 1]), FileOf(block));
  }

  function Additions(files: seq<DiffFile>): int {
    if files == [] then 0 else files[0].additions + Additions(files[1..])
  }

  function Deletions(files: seq<DiffFile>): int {
    if files == [] then 0 else files[0].deletions + Deletions(files[1..])
  }

  method ParseDiff(count: string -> int, lines: seq<string>) returns (files: seq<DiffFile>, stats: DiffStats)
    ensures files == Files(lines)
    ensures stats == DiffStats(|files|, Additions(files), Deletions(files))
  {
    files := [];
    var cur: Option<DiffFile> := None;
    for i := 0 to |lines|
      invariant Holds(lines[..i], files, cur)
    {
      var line := lines[i];
      assert lines[..i + 1] == lines[..i] + [line];
      if IsHeader(line) {
        HeaderStep(lines[..i], files, cur, line);
        if cur.Some? {
          files := files + [cur.value];
        } else {
          assert files + [] == files;
        }
        cur := Some(DiffFile(PathOf(line), 0, 0, ""));
      } else if cur.Some? {
        ghost var block := LineInside(lines[..i], files, cur.value, line);
        var next := AddLine(count, cur.value, line, block);
        cur := Some(next);
      } else {
        LineOutside(lines[..i], files, line);
      }
    }
    assert lines[..|lines|] == lines;
    if cur.Some? {
      files := files + [cur.value];
    }
    stats := Totals(files);
  }

  method Totals(files: seq<DiffFile>) returns (stats: DiffStats)
    ensures stats == DiffStats(|files|, Additions(files), Deletions(files))
  {
    stats := DiffStats(0, 0, 0);
    for i := 0 to |files|
      invariant stats.filesChanged == i
      invariant stats.additions + Additions(files[i..]) == Additions(files)
      invariant stats.deletions + Deletions(files[i..]) == Deletions(files)
    {
      assert files[i..][0] == files[i] && files[i..][1..] == files[i + 1..];
      var f := files[i];
      stats := DiffStats(stats.filesChanged + 1, stats.additions + f.additions, stats.deletions + f.deletions);
    }
  }

  // ----- What the parse promises -----

  /** Diffs can be parsed piece by piece, as long as each piece begins with a header. */
  lemma ParseAppend(a: seq<string>, b: seq<string>)
    requires b == [] || IsHeader(b[0])
    ensures Files(a + b) == Files(a) + Files(b)
  {
    BlocksAppend(IsHeader, Never, a, b);
    MapAppend(FileOf, Blocks(IsHeader, Never, a), Blocks(IsHeader, Never, b));
  }

  lemma {:induction false} PathsOfBlocks(blocks: seq<seq<string>>)
    requires Headed(IsHeader, blocks)
    ensures Map((f: DiffFile) => f.path, Map(FileOf, blocks)) == Map(PathOf, Heads(blocks))
  {
    if blocks != [] {
      assert Headed(IsHeader, blocks[1..]);
      PathsOfBlocks(blocks[1..]);
      assert Map(FileOf, blocks)[1..] == Map(FileOf, blocks[1..]);
      assert Heads(blocks)[1..] == Heads(blocks[1..]);
    }
  }

  // ----- The path of a header -----

  lemma {:induction false} SplitAppend(s: string, t: string)
    ensures Split(s + (" " + t)) == Split(s) + Split(t)
  {
    if s == [] {
      assert s + (" " + t) == " " + t && (" " + t)[1..] == t;
    } else {
      SplitAppend(s[1..], t);
      assert (s + (" " + t))[1..] == s[1..] + (" " + t);
      SplitHead(s[0], Split(s[1..]), Split(t));
    }
  }

  lemma SplitHead(c: char, a: seq<string>, b: seq<string>)
    requires a != []
    ensures [""] + (a + b) == ([""] + a) + b
    ensures [[c] + (a + b)[0]] + (a + b)[1..] == ([[c] + a[0]] + a[1..]) + b
  {
  }

  lemma {:induction false} PartIsShort(s: string, i: nat)
    requires i < |Split(s)|
    ensures |Split(s)[i]| <= |s|
  {
    if s != [] {
      PartIsShort(s[1..], if s[0] == ' ' && i > 0 then i - 1 else if s[0] == ' ' then 0 else i);
    }
  }

  function LastPart(s: string): string {
    Split(s)[|Split(s)| - 1]
  }

  /** The last part after a blank is the last part of what follows it. */
  lemma LastPartAppend(s: string, t: string)
    ensures LastPart(s + (" " + t)) == LastPart(t)
  {
    SplitAppend(s, t);
  }

  lemma HeaderText(p: string)
    ensures "diff --git " + p == "diff" + (" " + ("--git" + (" " + p)))
  {
    assert "diff --git " == "diff" + " " + "--git" + " ";
  }

  lemma HeaderParts(p: string, t: string)
    ensures |Split("diff --git " + p + (" " + t))| >= 4
    ensures LastPart("diff --git " + p + (" " + t)) == LastPart(t)
  {
    SplitAppend("diff --git " + p, t);
    HeaderText(p);
    SplitAppend("diff", "--git" + (" " + p));
    SplitAppend("--git", p);
  }

  lemma LastPartIsWhole(q: string)
    ensures TrimOne(LastPart("b/" + q), "b/") == q <==> ' ' !in q
  {
    if ' ' in q {
      var k :| 0 <= k < |q| && q[k] == ' ';
      var rest := q[k + 1..];
      assert "b/" + q == ("b/" + q[..k]) + (" " + rest);
      LastPartAppend("b/" + q[..k], rest);
      PartIsShort(rest, |Split(rest)| - 1);
    } else {
      OneWord("b/" + q);
    }
  }

  /** Exactly when the path read from a header is the file's new name: it has no blank. */
  lemma PathIsRightIff(p: string, q: string)
    ensures PathOf("diff --git " + p + (" " + ("b/" + q))) == q <==> ' ' !in q
  {
    HeaderParts(p, "b/" + q);
    LastPartIsWhole(q);
  }

  /** A header that names only one file has no path. */
  lemma OneNameHasNoPath(p: string)
    requires ' ' !in p
    ensures PathOf("diff --git " + p) == ""
  {
    HeaderText(p);
    SplitAppend("diff", "--git" + (" " + p));
    SplitAppend("--git", p);
    OneWord("diff");
    OneWord("--git");
    OneWord(p);
  }

  /** A header begins with these words, whatever follows. */
  lemma HeaderBegins(line: string)
    ensures IsHeader(line) <==> |line| >= 11 && line[..11] == "diff --git "
  {
    assert "diff --git " <= line <==> |line| >= 11 && forall i :: 0 <= i < 11 ==> line[i] == "diff --git "[i];
  }

  /** One file per header line, in order, each with its header's path. */
  lemma OneFilePerHeader(lines: seq<string>)
    ensures |Files(lines)| == |Filter(IsHeader, lines)|
    ensures Map((f: DiffFile) => f.path, Files(lines)) == Map(PathOf, Filter(IsHeader, lines))
  {
    HeadsAreStarts(IsHeader, Never, lines);
    PathsOfBlocks(Blocks(IsHeader, Never, lines));
  }

  predicate CountsAsAdded(line: string) {
    IsKept(line) && IsAdded(line)
  }

  predicate CountsAsRemoved(line: string) {
    IsKept(line) && IsRemoved(line)
  }

  lemma {:induction false} CountKept(lines: seq<string>)
    ensures Count(IsAdded, Filter(IsKept, lines)) == Count(CountsAsAdded, lines)
    ensures Count(IsRemoved, Filter(IsKept, lines)) == Count(CountsAsRemoved, lines)
  {
    if lines != [] {
      CountKept(lines[1..]);
      var rest := Filter(IsKept, lines[1..]);
      assert !IsKept(lines[0]) ==> Filter(IsKept, lines) == rest by {
        assert [] + rest == rest;
      }
      CountCons(IsAdded, lines[0], Filter(IsKept, lines[1..]));
      CountCons(IsRemoved, lines[0], Filter(IsKept, lines[1..]));
      assert lines == [lines[0]] + lines[1..];
      CountCons(CountsAsAdded, lines[0], lines[1..]);
      CountCons(CountsAsRemoved, lines[0], lines[1..]);
    }
  }

  /** Of a block only the lines below the header count, and the header would not count anyway. */
  lemma FileCounts(block: seq<string>)
    requires block != [] && IsHeader(block[0])
    ensures FileOf(block).additions == Count(CountsAsAdded, block)
    ensures FileOf(block).deletions == Count(CountsAsRemoved, block)
  {
    CountKept(block[1..]);
    assert block[0][0] == "diff --git "[0] == 'd';
  }

  lemma {:induction false} TotalsOfBlocks(blocks: seq<seq<string>>)
    requires Headed(IsHeader, blocks)
    ensures Additions(Map(FileOf, blocks)) == Count(CountsAsAdded, Flatten(blocks))
    ensures Deletions(Map(FileOf, blocks)) == Count(CountsAsRemoved, Flatten(blocks))
  {
    if blocks != [] {
      assert Headed(IsHeader, blocks[1..]);
      TotalsOfBlocks(blocks[1..]);
      FileCounts(blocks[0]);
      FilterAppend(CountsAsAdded, blocks[0], Flatten(blocks[1..]));
      FilterAppend(CountsAsRemoved, blocks[0], Flatten(blocks[1..]));
    }
  }

  /** The totals count the added and removed lines of the text, from the first header on. */
  lemma TotalsCountLines(lines: seq<string>)
    ensures Additions(Files(lines)) == Count(CountsAsAdded, lines[FirstStart(IsHeader, lines)..])
    ensures Deletions(Files(lines)) == Count(CountsAsRemoved, lines[FirstStart(IsHeader, lines)..])
  {
    BlocksKeepLines(IsHeader, lines);
    BlocksAreHeaded(IsHeader, Never, lines);
    TotalsOfBlocks(Blocks(IsHeader, Never, lines));
  }

  // ----- Which lines escape -----

  predicate StartsPlus(line: string) {
    "+" <= line
  }

  predicate StartsMinus(line: string) {
    "-" <= line
  }

  /** A line counts when it starts with one sign and not with three; the file name lines have three. */
  lemma CountsIff(line: string)
    ensures CountsAsAdded(line) <==> StartsPlus(line) && !("+++" <= line)
    ensures CountsAsRemoved(line) <==> StartsMinus(line) && !("---" <= line)
  {
    if "--- " <= line {
      assert line[..3] == "---" && line[0] == '-';
    }
    if "+++ " <= line {
      assert line[..3] == "+++" && line[0] == '+';
    }
  }

  /** Two counts agree exactly when the narrower condition holds wherever the wider one does. */
  lemma {:induction false} CountsAgreeIff(p: string -> bool, q: string -> bool, lines: seq<string>)
    requires forall x :: x in lines && p(x) ==> q(x)
    ensures Count(p, lines) <= Count(q, lines)
    ensures Count(p, lines) == Count(q, lines) <==> forall x :: x in lines && q(x) ==> p(x)
  {
    if lines != [] {
      var first, rest := lines[0], lines[1..];
      assert lines == [first] + rest && first in lines;
      CountsAgreeIff(p, q, rest);
      CountCons(p, first, rest);
      CountCons(q, first, rest);
    }
  }

  lemma BodyCounts(header: string, body: seq<string>)
    ensures FileOf([header] + body).additions == Count(CountsAsAdded, body)
    ensures FileOf([header] + body).deletions == Count(CountsAsRemoved, body)
  {
    assert ([header] + body)[1..] == body;
    CountKept(body);
  }

  /** Lines that count nothing, such as the index line and the two file name lines. */
  ghost predicate CountsNothing(lines: seq<string>) {
    forall x :: x in lines ==> !CountsAsAdded(x) && !CountsAsRemoved(x)
  }

  lemma HunksCount(header: string, head: seq<string>, hunks: seq<string>)
    requires CountsNothing(head)
    ensures FileOf([header] + (head + hunks)).additions == Count(CountsAsAdded, hunks)
    ensures FileOf([header] + (head + hunks)).deletions == Count(CountsAsRemoved, hunks)
  {
    BodyCounts(header, head + hunks);
    FilterAppend(CountsAsAdded, head, hunks);
    FilterAppend(CountsAsRemoved, head, hunks);
    FilterNone(CountsAsAdded, head);
    FilterNone(CountsAsRemoved, head);
  }

  /**
   The lines of a file that start with a hyphen, below a head that counts nothing, are all
   counted exactly when none of them starts with three.
   */
  lemma RemovedAreCountedIff(header: string, head: seq<string>, hunks: seq<string>)
    requires CountsNothing(head)
    ensures FileOf([header] + (head + hunks)).deletions == Count(StartsMinus, hunks) <==>
            forall x :: x in hunks ==> !("---" <= x)
  {
    HunksCount(header, head, hunks);
    forall x
      ensures CountsAsRemoved(x) <==> StartsMinus(x) && !("---" <= x)
    {
      CountsIff(x);
    }
    CountsAgreeIff(CountsAsRemoved, StartsMinus, hunks);
    forall x: string | "---" <= x
      ensures StartsMinus(x)
    {
      assert x[0] == '-';
    }
  }

  /** And so for the lines that start with a plus. */
  lemma AddedAreCountedIff(header: string, head: seq<string>, hunks: seq<string>)
    requires CountsNothing(head)
    ensures FileOf([header] + (head + hunks)).additions == Count(StartsPlus, hunks) <==>
            forall x :: x in hunks ==> !("+++" <= x)
  {
    HunksCount(header, head, hunks);
    forall x
      ensures CountsAsAdded(x) <==> StartsPlus(x) && !("+++" <= x)
    {
      CountsIff(x);
    }
    CountsAgreeIff(CountsAsAdded, StartsPlus, hunks);
    forall x: string | "+++" <= x
      ensures StartsPlus(x)
    {
      assert x[0] == '+';
    }
  }

  lemma {:induction false} KeptTextIsShorter(body: seq<string>)
    ensures |Text(Filter(IsKept, body))| <= |Text(body)|
    ensures |Text(Filter(IsKept, body))| == |Text(body)| <==> forall x :: x in body ==> IsKept(x)
  {
    if body != [] {
      var first, rest := body[0], body[1..];
      assert body == [first] + rest && first in body;
      KeptTextIsShorter(rest);
      FilterCons(IsKept, first, rest);
      if IsKept(first) {
        assert ([first] + Filter(IsKept, rest))[1..] == Filter(IsKept, rest);
      }
    }
  }

  /** The content is the whole body exactly when no line of it looks like a file name line. */
  lemma ContentIsWholeIff(header: string, body: seq<string>)
    ensures FileOf([header] + body).content == Text(body) <==> forall x :: x in body ==> IsKept(x)
  {
    assert ([header] + body)[1..] == body;
    KeptTextIsShorter(body);
    if forall x :: x in body ==> IsKept(x) {
      FilterAll(IsKept, body);
    }
  }

  /** So the removal of any line whose own text begins with two hyphens is not counted. */
  lemma RemovedDashesAreLost(header: string, text: string)
    ensures FileOf([header] + ["-" + "--" + text]).deletions == 0
  {
    var line := "-" + "--" + text;
    BodyCounts(header, [line]);
    CountsIff(line);
    assert line[..3] == "---";
    FilterOne(CountsAsRemoved, line);
  }

  /** Nor the addition of one whose text begins with two pluses. */
  lemma AddedPlusesAreLost(header: string, text: string)
    ensures FileOf([header] + ["+" + "++" + text]).additions == 0
  {
    var line := "+" + "++" + text;
    BodyCounts(header, [line]);
    CountsIff(line);
    assert line[..3] == "+++";
    FilterOne(CountsAsAdded, line);
  }

  // ----- Reading a written diff -----

  /** The old and the new name of a file, and the lines of its hunks. */
  datatype Written = Written(before: string, after: string, hunks: seq<string>)

  /** A line of a hunk: its header, an unchanged, an added or a removed line, or a note. */
  predicate IsHunkLine(x: string) {
    x != "" && (x[0] in "@ \\" || (x[0] == '+' && !("+++" <= x)) || (x[0] == '-' && !("---" <= x)))
  }

  predicate IsPlus(x: string) {
    x != "" && x[0] == '+'
  }

  predicate IsMinus(x: string) {
    x != "" && x[0] == '-'
  }

  predicate Readable(w: Written) {
    ' ' !in w.after && forall i :: 0 <= i < |w.hunks| ==> IsHunkLine(w.hunks[i])
  }

  function FirstLine(w: Written): string {
    "diff --git " + ("a/" + w.before) + (" " + ("b/" + w.after))
  }

  function NameLines(w: Written): seq<string> {
    ["--- a/" + w.before, "+++ b/" + w.after]
  }

  function Lines(w: Written): seq<string> {
    [FirstLine(w)] + (NameLines(w) + w.hunks)
  }

  function Read(w: Written): DiffFile {
    DiffFile(w.after, Count(IsPlus, w.hunks), Count(IsMinus, w.hunks), Text(w.hunks))
  }

  lemma HunkLine(x: string)
    requires IsHunkLine(x)
    ensures !IsHeader(x) && IsKept(x)
    ensures (CountsAsAdded(x) <==> IsPlus(x)) && (CountsAsRemoved(x) <==> IsMinus(x))
  {
    CountsIff(x);
    LineStarts(x);
  }

  lemma LineStarts(x: string)
    ensures "diff --git " <= x ==> x[0] == 'd'
    ensures "--- " <= x ==> "---" <= x
    ensures "+++ " <= x ==> "+++" <= x
    ensures ("+" <= x <==> x != "" && x[0] == '+') && ("-" <= x <==> x != "" && x[0] == '-')
    ensures ("---" <= x ==> x[0] == '-') && ("+++" <= x ==> x[0] == '+')
  {
    if "diff --git " <= x {
      assert x[..11] == "diff --git ";
    }
    if "--- " <= x {
      assert x[..4] == "--- " && x[..3] == "---";
    }
    if "+++ " <= x {
      assert x[..4] == "+++ " && x[..3] == "+++";
    }
  }

  lemma HeaderLine(w: Written)
    ensures IsHeader(FirstLine(w))
  {
    assert FirstLine(w)[..11] == "diff --git ";
  }

  lemma NameLine(w: Written, x: string)
    requires x in NameLines(w)
    ensures !IsHeader(x) && !IsKept(x)
  {
    var minus, plus := NameLines(w)[0], NameLines(w)[1];
    assert minus[..4] == "--- " && plus[..4] == "+++ ";
    assert "diff --git "[0] == 'd' && minus[0] == '-' && plus[0] == '+';
  }

  lemma {:induction false} BlockReaches(lines: seq<string>, i: nat)
    requires i <= |lines| && forall k :: i <= k < |lines| ==> !IsHeader(lines[k])
    ensures BlockEnd(IsHeader, Never, lines, i) == |lines|
    decreases |lines| - i
  {
    if i < |lines| {
      BlockReaches(lines, i + 1);
    }
  }

  lemma OneBlock(header: string, body: seq<string>)
    requires IsHeader(header) && forall x :: x in body ==> !IsHeader(x)
    ensures Blocks(IsHeader, Never, [header] + body) == [[header] + body]
  {
    var lines := [header] + body;
    BlockReaches(lines, 1);
    assert lines[..|lines|] == lines && lines[|lines|..] == [];
    assert [lines] + Blocks(IsHeader, Never, lines[|lines|..]) == [lines];
  }

  lemma BodyIsRead(w: Written)
    requires Readable(w)
    ensures FileOf(Lines(w)) == Read(w)
  {
    var head, body := NameLines(w), NameLines(w) + w.hunks;
    forall x | x in head
      ensures !IsKept(x) && !CountsAsAdded(x) && !CountsAsRemoved(x)
    {
      NameLine(w, x);
    }
    forall x | x in w.hunks
      ensures IsKept(x) && CountsAsAdded(x) == IsPlus(x) && CountsAsRemoved(x) == IsMinus(x)
    {
      HunkLine(x);
    }
    HunksCount(FirstLine(w), head, w.hunks);
    FilterAgree(CountsAsAdded, IsPlus, w.hunks);
    FilterAgree(CountsAsRemoved, IsMinus, w.hunks);
    FilterAppend(IsKept, head, w.hunks);
    FilterNone(IsKept, head);
    FilterAll(IsKept, w.hunks);
    assert [] + w.hunks == w.hunks && Lines(w)[1..] == body;
    PathIsRightIff("a/" + w.before, w.after);
  }

  lemma FileIsRead(w: Written)
    requires Readable(w)
    ensures Files(Lines(w)) == [Read(w)]
  {
    var body := NameLines(w) + w.hunks;
    HeaderLine(w);
    forall x | x in body
      ensures !IsHeader(x)
    {
      if x in w.hunks {
        HunkLine(x);
      } else {
        NameLine(w, x);
      }
    }
    OneBlock(FirstLine(w), body);
    BodyIsRead(w);
    MapOne(FileOf, Lines(w));
  }

  /** A written diff is read as its files, each with its new name, its counts and its hunks. */
  lemma {:induction false} ReadingInvertsWriting(ws: seq<Written>)
    requires forall i :: 0 <= i < |ws| ==> Readable(ws[i])
    ensures Files(Flatten(Map(Lines, ws))) == Map(Read, ws)
  {
    if ws == [] {
      assert Files([]) == [];
    } else {
      var rest := Flatten(Map(Lines, ws[1..]));
      ReadingInvertsWriting(ws[1..]);
      HeaderLine(ws[0]);
      if |ws| > 1 {
        HeaderLine(ws[1]);
        assert rest == Lines(ws[1]) + Flatten(Map(Lines, ws[1..][1..]));
      }
      ParseAppend(Lines(ws[0]), rest);
      FileIsRead(ws[0]);
      assert Map(Lines, ws)[1..] == Map(Lines, ws[1..]);
    }
  }
}
