/**
 The parser of "git worktree list --porcelain" (dxrk/git.py), on the list of lines.

 Its three places that finish an entry amount to cutting the text into blocks.
 */
module Worktrees {
  import opened LineBlocks
  import opened Sequences
  import opened Words
  import opened Wrappers

  datatype Worktree =
    Worktree(path: string, branch: string, hash: string, isBare: bool, isDetached: bool, isLocked: bool)

  const WORKTREE := "worktree "
  const HEAD := "HEAD "
  const BRANCH := "branch refs/heads/"

  function TrimLeft(s: string): string {
    if s != [] && IsSpace(s[0]) then TrimLeft(s[1..]) else s
  }

  function TrimRight(s: string): string {
    if s != [] && IsSpace(s[|s| - 1]) then TrimRight(s[..|s| - 1]) else s
  }

  function Strip(s: string): string {
    TrimRight(TrimLeft(s))
  }

  predicate IsEntry(line: string) {
    WORKTREE <= line
  }

  predicate IsBlank(line: string) {
    line == ""
  }

  predicate IsLock(line: string) {
    "locked" <= line
  }

  // ----- What an entry is: a worktree line and the lines below it -----

  /** What follows the prefix on the last line that has it. */
  function LastValue(prefix: string, lines: seq<string>): string {
    if lines == [] then ""
    else if prefix <= lines[|lines| - 1] then lines[|lines| - 1][|prefix|..]
    else LastValue(prefix, lines[..|lines| - 1])
  }

  function PathOf(line: string): string {
    if WORKTREE <= line then line[|WORKTREE|..] else ""
  }

  function Describe(block: seq<string>): Worktree {
    if block == [] then Worktree("", "", "", false, false, false)
    else
      var body := block[1..];
      Worktree(PathOf(block[0]), LastValue(BRANCH, body), LastValue(HEAD, body),
               "bare" in body, "detached" in body, Filter(IsLock, body) != [])
  }

  /** The entries of lines that are stripped already. */
  function Entries(lines: seq<string>): seq<Worktree> {
    Map(Describe, Blocks(IsEntry, IsBlank, lines))
  }

  lemma LastValueSnoc(prefix: string, lines: seq<string>, x: string)
    ensures LastValue(prefix, lines + [x]) == if prefix <= x then x[|prefix|..] else LastValue(prefix, lines)
  {
    assert (lines + [x])[..|lines|] == lines;
  }

  /** A lock line begins with that word, whatever follows it. */
  lemma LockBegins(line: string)
    ensures IsLock(line) <==> |line| >= 6 && line[..6] == "locked"
  {
    assert "locked" <= line <==> |line| >= 6 && forall i :: 0 <= i < 6 ==> line[i] == "locked"[i];
  }

  /** The kinds of field lines exclude each other, so the order of the checks does not matter. */
  lemma FieldsExclude(line: string)
    ensures HEAD <= line ==> !(BRANCH <= line) && line != "bare" && line != "detached" && !IsLock(line)
    ensures BRANCH <= line ==> line != "bare" && line != "detached" && !IsLock(line)
    ensures line == "bare" || line == "detached" ==> !IsLock(line)
  {
    assert HEAD[0] == 'H' && BRANCH[0] == 'b' && BRANCH[1] == 'r' && "locked"[0] == 'l';
    assert "bare"[0] == 'b' && "bare"[1] == 'a' && "detached"[0] == 'd';
  }

  lemma DescribeSnoc(block: seq<string>, x: string)
    requires block != []
    ensures var w := Describe(block);
      Describe(block + [x]) ==
        Worktree(w.path, if BRANCH <= x then x[|BRANCH|..] else w.branch, if HEAD <= x then x[|HEAD|..] else w.hash,
                 w.isBare || x == "bare", w.isDetached || x == "detached", w.isLocked || IsLock(x))
  {
    assert (block + [x])[1..] == block[1..] + [x];
    LastValueSnoc(BRANCH, block[1..], x);
    LastValueSnoc(HEAD, block[1..], x);
    FilterAppend(IsLock, block[1..], [x]);
    FilterOne(IsLock, x);
  }

  /** The loop body for a line inside an entry. */
  method AddField(w: Worktree, line: string, ghost block: seq<string>) returns (r: Worktree)
    requires block != [] && w == Describe(block)
    ensures r == Describe(block + [line])
  {
    FieldsExclude(line);
    DescribeSnoc(block, line);
    if HEAD <= line {
      r := w.(hash := line[|HEAD|..]);
    } else if BRANCH <= line {
      r := w.(branch := line[|BRANCH|..]);
    } else if line == "bare" {
      r := w.(isBare := true);
    } else if line == "detached" {
      r := w.(isDetached := true);
    } else if "locked" <= line {
      r := w.(isLocked := true);
    } else {
      r := w;
    }
  }

  // ----- The program -----

  /** The finished entries and the current one are the entries of the lines read so far. */
  ghost predicate Holds(read: seq<string>, worktrees: seq<Worktree>, cur: Option<Worktree>) {
    && cur.Some? == Open(IsEntry, IsBlank, read)
    && worktrees + (if cur.Some? then [cur.value] else []) == Entries(read)
  }

  lemma BlankStep(read: seq<string>, worktrees: seq<Worktree>, cur: Option<Worktree>)
    requires Holds(read, worktrees, cur)
    ensures Holds(read + [""], worktrees + (if cur.Some? then [cur.value] else []), None)
  {
    EndCloses(IsEntry, IsBlank, read, "");
  }

  lemma EntryStep(read: seq<string>, worktrees: seq<Worktree>, cur: Option<Worktree>, x: string)
    requires Holds(read, worktrees, cur) && IsEntry(x)
    ensures Holds(read + [x], worktrees + (if cur.Some? then [cur.value] else []), Some(Describe([x])))
  {
    StartOpens(IsEntry, IsBlank, read, x);
    MapSnoc(Describe, Blocks(IsEntry, IsBlank, read), [x]);
  }

  lemma OutsideStep(read: seq<string>, worktrees: seq<Worktree>, x: string)
    requires Holds(read, worktrees, None) && !IsEntry(x) && !IsBlank(x)
    ensures Holds(read + [x], worktrees, None)
  {
    JoinLine(IsEntry, IsBlank, read, x);
  }

  lemma InsideStep(read: seq<string>, worktrees: seq<Worktree>, cur: Worktree, x: string) returns (block: seq<string>)
    requires Holds(read, worktrees, Some(cur)) && !IsEntry(x) && !IsBlank(x)
    ensures block != [] && cur == Describe(block)
    ensures Holds(read + [x], worktrees, Some(Describe(block + [x])))
  {
    JoinLine(IsEntry, IsBlank, read, x);
    BlocksAreHeaded(IsEntry, IsBlank, read);
    var blocks := Blocks(IsEntry, IsBlank, read);
    block := MapExtended(Describe, blocks, x);
    SameSnoc(worktrees, cur, Map(Describe, blocks[..|blocks| - 1]), Describe(block));
  }

  lemma FreshEntry(line: string)
    requires IsEntry(line)
    ensures Describe([line]) == Worktree(line[|WORKTREE|..], "", "", false, false, false)
  {
    assert [line][1..] == [];
  }

  /** All three places that finish an entry together yield the entries of the text. */
  method ParseWorktrees(lines: seq<string>) returns (worktrees: seq<Worktree>)
    ensures worktrees == Entries(Map(Strip, lines))
  {
    worktrees := [];
    var cur: Option<Worktree> := None;
    for i := 0 to |lines|
      invariant Holds(Map(Strip, lines[..i]), worktrees, cur)
    {
      ghost var read := Map(Strip, lines[..i]);
      assert lines[..i + 1] == lines[..i] + [lines[i]];
      MapSnoc(Strip, lines[..i], lines[i]);
      var line := Strip(lines[i]);
      if line == "" {
        BlankStep(read, worktrees, cur);
        if cur.Some? {
          worktrees := worktrees + [cur.value];
          cur := None;
        } else {
          assert worktrees + [] == worktrees;
        }
        continue;
      }
      if WORKTREE <= line {
        EntryStep(read, worktrees, cur, line);
        if cur.Some? {
          worktrees := worktrees + [cur.value];
        } else {
          assert worktrees + [] == worktrees;
        }
        FreshEntry(line);
        cur := Some(Worktree(line[|WORKTREE|..], "", "", false, false, false));
        continue;
      }
      if cur.None? {
        OutsideStep(read, worktrees, line);
        continue;
      }
      ghost var block := InsideStep(read, worktrees, cur.value, line);
      var next := AddField(cur.value, line, block);
      cur := Some(next);
    }
    assert lines[..|lines|] == lines;
    if cur.Some? {
      worktrees := worktrees + [cur.value];
    }
  }

  // ----- What the parse promises -----

  /** Listings can be parsed piece by piece, cut at a blank line or before a worktree line. */
  lemma EntriesAppend(a: seq<string>, b: seq<string>)
    requires b == [] || IsEntry(b[0]) || IsBlank(b[0])
    ensures Entries(a + b) == Entries(a) + Entries(b)
  {
    BlocksAppend(IsEntry, IsBlank, a, b);
    MapAppend(Describe, Blocks(IsEntry, IsBlank, a), Blocks(IsEntry, IsBlank, b));
  }

  lemma {:induction false} PathsOfBlocks(blocks: seq<seq<string>>)
    requires Headed(IsEntry, blocks)
    ensures Map((w: Worktree) => w.path, Map(Describe, blocks)) == Map(PathOf, Heads(blocks))
  {
    if blocks != [] {
      assert Headed(IsEntry, blocks[1..]);
      PathsOfBlocks(blocks[1..]);
      assert Map(Describe, blocks)[1..] == Map(Describe, blocks[1..]);
      assert Heads(blocks)[1..] == Heads(blocks[1..]);
    }
  }

  /** One entry per worktree line, in order, each with its line's path. */
  lemma OneEntryPerLine(lines: seq<string>)
    ensures |Entries(lines)| == |Filter(IsEntry, lines)|
    ensures Map((w: Worktree) => w.path, Entries(lines)) == Map(PathOf, Filter(IsEntry, lines))
  {
    HeadsAreStarts(IsEntry, IsBlank, lines);
    PathsOfBlocks(Blocks(IsEntry, IsBlank, lines));
  }

  // ----- Stripping -----

  /** Visible ends: nothing is stripped from such a text. */
  predicate HasInk(s: string) {
    s != "" && !IsSpace(s[0]) && !IsSpace(s[|s| - 1])
  }

  predicate AllSpace(s: string) {
    forall i :: 0 <= i < |s| ==> IsSpace(s[i])
  }

  lemma {:induction false} TrimLeftSpaces(a: string, s: string)
    requires AllSpace(a) && (s == "" || !IsSpace(s[0]))
    ensures TrimLeft(a + s) == s
  {
    if a == "" {
      assert a + s == s;
    } else {
      assert (a + s)[0] == a[0] && (a + s)[1..] == a[1..] + s;
      TrimLeftSpaces(a[1..], s);
    }
  }

  lemma {:induction false} TrimRightSpaces(s: string, b: string)
    requires AllSpace(b) && (s == "" || !IsSpace(s[|s| - 1]))
    ensures TrimRight(s + b) == s
  {
    if b == "" {
      assert s + b == s;
    } else {
      var t := s + b;
      assert t[|t| - 1] == b[|b| - 1] && t[..|t| - 1] == s + b[..|b| - 1];
      TrimRightSpaces(s, b[..|b| - 1]);
    }
  }

  /** Stripping takes the white space off both ends and nothing else. */
  lemma StripTakesEnds(a: string, s: string, b: string)
    requires AllSpace(a) && AllSpace(b) && (s == "" || HasInk(s))
    ensures Strip(a + (s + b)) == s
  {
    if s == "" {
      assert a + (s + b) == (a + b) + "" && AllSpace(a + b);
      TrimLeftSpaces(a + b, "");
    } else {
      TrimLeftSpaces(a, s + b);
      TrimRightSpaces(s, b);
    }
  }

  lemma InkStays(s: string)
    requires s == "" || HasInk(s)
    ensures Strip(s) == s
  {
    StripTakesEnds("", s, "");
    assert "" + (s + "") == s;
  }

  // ----- Reading a written listing -----

  /** How an entry is listed; a missing hash or branch has no line, and a lock may carry a reason. */
  function Listed(w: Worktree, reason: string): seq<string> {
    ["worktree " + w.path]
    + (if w.hash != "" then ["HEAD " + w.hash] else [])
    + (if w.branch != "" then ["branch refs/heads/" + w.branch] else [])
    + (if w.isBare then ["bare"] else [])
    + (if w.isDetached then ["detached"] else [])
    + (if w.isLocked then ["locked" + reason] else [])
  }

  predicate EndsInInk(s: string) {
    s != "" && !IsSpace(s[|s| - 1])
  }

  /** No field ends in white space, and the path is not empty. */
  predicate Listable(w: Worktree, reason: string) {
    && EndsInInk(w.path) && (w.hash == "" || EndsInInk(w.hash)) && (w.branch == "" || EndsInInk(w.branch))
    && (reason == "" || EndsInInk(reason))
  }

  /** A further line of the open entry that is shown by reading it. */
  lemma FieldJoins(read: seq<string>, ws: seq<Worktree>, cur: Worktree, x: string, next: Worktree)
    requires Holds(read, ws, Some(cur)) && !IsEntry(x) && !IsBlank(x)
    requires next ==
             Worktree(cur.path, if BRANCH <= x then x[|BRANCH|..] else cur.branch,
                      if HEAD <= x then x[|HEAD|..] else cur.hash,
                      cur.isBare || x == "bare", cur.isDetached || x == "detached", cur.isLocked || IsLock(x))
    ensures Holds(read + [x], ws, Some(next))
  {
    var block := InsideStep(read, ws, cur, x);
    DescribeSnoc(block, x);
  }

  lemma HeadLine(h: string)
    ensures var x := "HEAD " + h;
      HEAD <= x && x[|HEAD|..] == h && !IsEntry(x) && !IsBlank(x)
  {
    var x := "HEAD " + h;
    assert x[..5] == "HEAD " && x[0] == 'H' && WORKTREE[0] == 'w';
  }

  lemma BranchLine(b: string)
    ensures var x := "branch refs/heads/" + b;
      BRANCH <= x && x[|BRANCH|..] == b && !IsEntry(x) && !IsBlank(x)
  {
    var x := "branch refs/heads/" + b;
    assert x[..18] == "branch refs/heads/" && x[0] == 'b' && WORKTREE[0] == 'w';
  }

  lemma LockLine(r: string)
    ensures var x := "locked" + r;
      IsLock(x) && !IsEntry(x) && !IsBlank(x) && !(HEAD <= x) && !(BRANCH <= x) && x != "bare" && x != "detached"
  {
    var x := "locked" + r;
    assert x[..6] == "locked" && x[0] == 'l' && WORKTREE[0] == 'w';
    FieldsExclude(x);
  }

  lemma WordLines()
    ensures forall x :: x in ["bare", "detached"] ==>
              !IsEntry(x) && !IsBlank(x) && !(HEAD <= x) && !(BRANCH <= x) && !IsLock(x)
    ensures "bare" != "detached"
  {
    FieldsExclude("bare");
    FieldsExclude("detached");
    assert "bare"[0] == 'b' && "detached"[0] == 'd' && WORKTREE[0] == 'w';
  }

  /** What has been read of an entry: some of its fields. */
  function Fields(w: Worktree, n: nat): Worktree {
    Worktree(w.path, if n >= 2 then w.branch else "", if n >= 1 then w.hash else "",
             n >= 3 && w.isBare, n >= 4 && w.isDetached, n >= 5 && w.isLocked)
  }

  function FieldLines(w: Worktree, reason: string, n: nat): seq<string> {
    if n == 1 then (if w.hash != "" then ["HEAD " + w.hash] else [])
    else if n == 2 then (if w.branch != "" then ["branch refs/heads/" + w.branch] else [])
    else if n == 3 then (if w.isBare then ["bare"] else [])
    else if n == 4 then (if w.isDetached then ["detached"] else [])
    else (if w.isLocked then ["locked" + reason] else [])
  }

  lemma NextField(read: seq<string>, ws: seq<Worktree>, w: Worktree, reason: string, n: nat)
    requires 1 <= n <= 5 && Holds(read, ws, Some(Fields(w, n - 1)))
    ensures Holds(read + FieldLines(w, reason, n), ws, Some(Fields(w, n)))
  {
    assert read + [] == read;
    if FieldLines(w, reason, n) != [] {
      var x := FieldLines(w, reason, n)[0];
      HeadLine(w.hash);
      BranchLine(w.branch);
      LockLine(reason);
      WordLines();
      FieldsExclude(x);
      FieldJoins(read, ws, Fields(w, n - 1), x, Fields(w, n));
    }
  }

  lemma PathLine(p: string)
    ensures IsEntry("worktree " + p) && ("worktree " + p)[|WORKTREE|..] == p
  {
    assert ("worktree " + p)[..9] == "worktree ";
  }

  lemma FirstLineIsRead(read: seq<string>, ws: seq<Worktree>, w: Worktree)
    requires Holds(read, ws, None)
    ensures Holds(read + ["worktree " + w.path], ws, Some(Fields(w, 0)))
  {
    var first := "worktree " + w.path;
    PathLine(w.path);
    FreshEntry(first);
    EntryStep(read, ws, None, first);
    assert ws + [] == ws;
  }

  lemma FieldsAreRead(read: seq<string>, ws: seq<Worktree>, w: Worktree, reason: string)
    requires Holds(read, ws, Some(Fields(w, 0)))
    ensures Holds(read + FieldLines(w, reason, 1) + FieldLines(w, reason, 2) + FieldLines(w, reason, 3)
                  + FieldLines(w, reason, 4) + FieldLines(w, reason, 5), ws, Some(w))
  {
    var r1 := read + FieldLines(w, reason, 1);
    var r2 := r1 + FieldLines(w, reason, 2);
    var r3 := r2 + FieldLines(w, reason, 3);
    NextField(read, ws, w, reason, 1);
    NextField(r1, ws, w, reason, 2);
    NextField(r2, ws, w, reason, 3);
    NextField(r3, ws, w, reason, 4);
    NextField(r3 + FieldLines(w, reason, 4), ws, w, reason, 5);
  }

  lemma Regroup(read: seq<string>, w: Worktree, reason: string)
    ensures read + ["worktree " + w.path] + FieldLines(w, reason, 1) + FieldLines(w, reason, 2)
            + FieldLines(w, reason, 3) + FieldLines(w, reason, 4) + FieldLines(w, reason, 5)
         == read + Listed(w, reason)
  {
  }

  /** Behind any entries, a listed one is read back, and a blank line ends it. */
  lemma ListedIsRead(read: seq<string>, ws: seq<Worktree>, w: Worktree, reason: string)
    requires Holds(read, ws, None)
    ensures Holds(read + Listed(w, reason), ws, Some(w))
    ensures Holds(read + Listed(w, reason) + [""], ws + [w], None)
  {
    FirstLineIsRead(read, ws, w);
    FieldsAreRead(read + ["worktree " + w.path], ws, w, reason);
    Regroup(read, w, reason);
    BlankStep(read + Listed(w, reason), ws, Some(w));
  }

  function Listing(ws: seq<Worktree>, reasons: seq<string>): seq<string>
    requires |reasons| == |ws|
  {
    if ws == [] then []
    else
      var n := |ws| - 1;
      Listing(ws[..n], reasons[..n]) + Listed(ws[n], reasons[n]) + [""]
  }

  lemma {:induction false} ListingHolds(ws: seq<Worktree>, reasons: seq<string>)
    requires |reasons| == |ws|
    ensures Holds(Listing(ws, reasons), ws, None)
  {
    if ws != [] {
      var n := |ws| - 1;
      ListingHolds(ws[..n], reasons[..n]);
      ListedIsRead(Listing(ws[..n], reasons[..n]), ws[..n], ws[n], reasons[n]);
      assert ws[..n] + [ws[n]] == ws;
    } else {
      assert Entries([]) == [];
    }
  }

  ghost predicate AreStripped(lines: seq<string>) {
    Map(Strip, lines) == lines
  }

  lemma StrippedAppend(a: seq<string>, b: seq<string>)
    requires AreStripped(a) && AreStripped(b)
    ensures AreStripped(a + b)
  {
    MapAppend(Strip, a, b);
  }

  lemma StrippedLine(open: string, rest: string)
    requires open != "" && !IsSpace(open[0])
    requires if rest == "" then !IsSpace(open[|open| - 1]) else EndsInInk(rest)
    ensures AreStripped([open + rest])
  {
    var x := open + rest;
    assert x[0] == open[0] && x[|x| - 1] == if rest == "" then open[|open| - 1] else rest[|rest| - 1];
    InkStays(x);
    MapOne(Strip, x);
  }

  lemma FieldIsStripped(w: Worktree, reason: string, n: nat)
    requires 1 <= n <= 5 && Listable(w, reason)
    ensures AreStripped(FieldLines(w, reason, n))
  {
    if FieldLines(w, reason, n) != [] {
      if n == 1 {
        StrippedLine("HEAD ", w.hash);
      } else if n == 2 {
        StrippedLine("branch refs/heads/", w.branch);
      } else if n == 3 {
        StrippedLine("bare", "");
        assert "bare" + "" == "bare";
      } else if n == 4 {
        StrippedLine("detached", "");
        assert "detached" + "" == "detached";
      } else {
        StrippedLine("locked", reason);
      }
    }
  }

  lemma FirstFields(w: Worktree, reason: string)
    requires Listable(w, reason)
    ensures AreStripped(["worktree " + w.path] + FieldLines(w, reason, 1) + FieldLines(w, reason, 2))
  {
    var first := ["worktree " + w.path];
    StrippedLine("worktree ", w.path);
    FieldIsStripped(w, reason, 1);
    FieldIsStripped(w, reason, 2);
    StrippedAppend(first, FieldLines(w, reason, 1));
    StrippedAppend(first + FieldLines(w, reason, 1), FieldLines(w, reason, 2));
  }

  lemma ListedIsStripped(w: Worktree, reason: string)
    requires Listable(w, reason)
    ensures AreStripped(Listed(w, reason) + [""])
  {
    var lines := ["worktree " + w.path] + FieldLines(w, reason, 1) + FieldLines(w, reason, 2);
    FirstFields(w, reason);
    FieldIsStripped(w, reason, 3);
    FieldIsStripped(w, reason, 4);
    FieldIsStripped(w, reason, 5);
    StrippedAppend(lines, FieldLines(w, reason, 3));
    StrippedAppend(lines + FieldLines(w, reason, 3), FieldLines(w, reason, 4));
    StrippedAppend(lines + FieldLines(w, reason, 3) + FieldLines(w, reason, 4), FieldLines(w, reason, 5));
    InkStays("");
    MapOne(Strip, "");
    StrippedAppend(Listed(w, reason), [""]);
  }

  lemma {:induction false} ListingIsStripped(ws: seq<Worktree>, reasons: seq<string>)
    requires |reasons| == |ws| && forall i :: 0 <= i < |ws| ==> Listable(ws[i], reasons[i])
    ensures AreStripped(Listing(ws, reasons))
  {
    if ws != [] {
      var n := |ws| - 1;
      var init := Listing(ws[..n], reasons[..n]);
      ListingIsStripped(ws[..n], reasons[..n]);
      ListedIsStripped(ws[n], reasons[n]);
      StrippedAppend(init, Listed(ws[n], reasons[n]) + [""]);
      assert init + (Listed(ws[n], reasons[n]) + [""]) == init + Listed(ws[n], reasons[n]) + [""];
    }
  }

  /** Reading a written listing gives its entries back. */
  lemma ReadingInvertsListing(ws: seq<Worktree>, reasons: seq<string>)
    requires |reasons| == |ws| && forall i :: 0 <= i < |ws| ==> Listable(ws[i], reasons[i])
    ensures Entries(Map(Strip, Listing(ws, reasons))) == ws
  {
    ListingIsStripped(ws, reasons);
    ListingHolds(ws, reasons);
    assert ws + [] == ws;
  }
}
