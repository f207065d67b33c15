/** Prompt files as documents: text with one marked block per agent in between. */
module MarkedDocs {
  // Injecting into the rendered file refines updating one entry of the document.

  import opened Wrappers
  import opened Markers

  /** text, then blocks each followed by more of the document. */
  datatype Doc = Text(text: string) | Seg(text: string, name: string, body: string, rest: Doc)

  function Render(doc: Doc): string {
    match doc
    case Text(t) => t
    case Seg(t, m, b, rest) => t + (Block(m, b) + Render(rest))
  }

  /** The body of every agent that has a block. */
  function Blocks(doc: Doc): map<string, string> {
    match doc
    case Text(_) => map[]
    case Seg(_, m, b, rest) => Blocks(rest)[m := b]
  }

  function Replace(doc: Doc, n: string, body: string): Doc {
    match doc
    case Text(_) => doc
    case Seg(t, m, b, rest) => if m == n then Seg(t, m, body, rest) else Seg(t, m, b, Replace(rest, n, body))
  }

  function Append(doc: Doc, gap: string, n: string, body: string): Doc {
    match doc
    case Text(t) => Seg(t + gap, n, body, Text("\n"))
    case Seg(t, m, b, rest) => Seg(t, m, b, Append(rest, gap, n, body))
  }

  /** The newlines that go in front of a new block. */
  function Gap(content: string): string {
    if content != "" && content[|content| - 1] == '\n' then "\n" else "\n\n"
  }

  function Update(doc: Doc, n: string, body: string): Doc {
    if n in Blocks(doc) then Replace(doc, n, body) else Append(doc, Gap(Render(doc)), n, body)
  }

  function Texts(doc: Doc): seq<string> {
    match doc
    case Text(t) => [t]
    case Seg(t, _, _, rest) => [t] + Texts(rest)
  }

  /** No text and no other block's body carries the begin marker of n, and the own body not the end marker. */
  ghost predicate CleanFor(doc: Doc, n: string) {
    match doc
    case Text(t) => !Contains(t, Begin(n))
    case Seg(t, m, b, rest) =>
      && ValidName(m)
      && !Contains(t, Begin(n))
      && BodyFits(b, m, n)
      && CleanFor(rest, n)
  }

  /** The body of m does not mislead the search for the block of n. */
  ghost predicate BodyFits(body: string, m: string, n: string) {
    if m == n then !Contains(body, End(n)) else !Contains(body, Begin(n))
  }

  lemma EndIsNotBegin(n: string, m: string, rest: string)
    requires ValidName(n) && ValidName(m)
    ensures NotIn(End(m), rest, Begin(n))
  {
    MarkerShape(n);
    MarkerShape(m);
    var s := End(m) + rest;
    forall k | 0 <= k < |End(m)|
      ensures !Occurs(s, Begin(n), k)
    {
      if k > 0 {
        assert s[k] == End(m)[1..][k - 1];
        assert s[k + 0] != Begin(n)[0];
      } else {
        assert s[0 + 5] == End(m)[5];
      }
    }
  }

  lemma BeginIsNotOtherBegin(n: string, m: string, rest: string)
    requires ValidName(n) && ValidName(m) && n != m
    ensures NotIn(Begin(m), rest, Begin(n))
  {
    MarkerShape(n);
    MarkerShape(m);
    DifferentBegin(n, m, rest);
    var s := Begin(m) + rest;
    forall k | 0 < k < |Begin(m)|
      ensures !Occurs(s, Begin(n), k)
    {
      assert s[k] == Begin(m)[1..][k - 1];
      assert s[k + 0] != Begin(n)[0];
    }
  }

  function Shifted(k: nat, found: int): int {
    if found < 0 then -1 else k + found
  }

  /** Searching for n passes over the text and the block of another agent. */
  lemma SegmentIsSkipped(t: string, m: string, b: string, tail: string, n: string)
    requires ValidName(n) && ValidName(m) && n != m
    requires !Contains(t, Begin(n)) && !Contains(b, Begin(n))
    ensures Find(t + (Block(m, b) + tail), Begin(n), 0)
         == Shifted(|t + Block(m, b)|, Find(tail, Begin(n), 0))
  {
    MarkerShape(n);
    MarkerShape(m);
    var p := Begin(n);
    var fromEnd := End(m) + tail;
    var fromBody := b + fromEnd;
    var fromLine := "\n" + fromBody;
    var fromBegin := Begin(m) + fromLine;
    EndIsNotBegin(n, m, tail);
    SkipTo(End(m), tail, p);
    NotAcross(b, fromEnd, p);
    SkipTo(b, fromEnd, p);
    NotStarting("\n", fromBody, p);
    SkipTo("\n", fromBody, p);
    BeginIsNotOtherBegin(n, m, fromLine);
    SkipTo(Begin(m), fromLine, p);
    NotAcross(t, fromBegin, p);
    SkipTo(t, fromBegin, p);
    assert Block(m, b) + tail == fromBegin;
  }

  function Offset(doc: Doc, n: string): nat
    requires n in Blocks(doc)
  {
    if doc.name == n then |doc.text| else |doc.text + Block(doc.name, doc.body)| + Offset(doc.rest, n)
  }

  /** The begin marker of n is found at the block of n, or nowhere. */
  lemma {:induction false} FindInDoc(doc: Doc, n: string)
    requires ValidName(n) && CleanFor(doc, n)
    ensures Find(Render(doc), Begin(n), 0) == if n in Blocks(doc) then Offset(doc, n) else -1
  {
    match doc {
      case Text(t) =>
      case Seg(t, m, b, rest) =>
        if m == n {
          var tail := "\n" + b + End(n) + Render(rest);
          assert Block(n, b) + Render(rest) == Begin(n) + tail;
          BlockIsFound(t, n, tail);
        } else {
          FindInDoc(rest, n);
          SegmentIsSkipped(t, m, b, Render(rest), n);
        }
    }
  }

  lemma Regroup(a: string, b: string, c: string, d: string, e: string)
    ensures a + (b + (c + d + e)) == a + b + c + d + e
  {
  }

  lemma RegroupLast(a: string, b: string, c: string, d: string)
    ensures a + (b + (c + d)) == a + (b + c) + d
  {
  }

  /** The file around the block of n, whatever its body. */
  lemma {:induction false} SplitAtBlock(doc: Doc, n: string, body: string)
    returns (pre: string, current: string, post: string)
    requires CleanFor(doc, n) && n in Blocks(doc)
    ensures Render(doc) == pre + Block(n, current) + post
    ensures Render(Replace(doc, n, body)) == pre + Block(n, body) + post
    ensures |pre| == Offset(doc, n) && !Contains(current, End(n))
  {
    var Seg(t, m, b, rest) := doc;
    if m == n {
      pre, current, post := t, b, Render(rest);
      assert t + (Block(n, b) + post) == t + Block(n, b) + post;
      assert t + (Block(n, body) + post) == t + Block(n, body) + post;
    } else {
      var inner;
      inner, current, post := SplitAtBlock(rest, n, body);
      pre := t + Block(m, b) + inner;
      Regroup(t, Block(m, b), inner, Block(n, current), post);
      Regroup(t, Block(m, b), inner, Block(n, body), post);
    }
  }

  lemma {:induction false} RenderAppend(doc: Doc, gap: string, n: string, body: string)
    ensures Render(Append(doc, gap, n, body)) == Render(doc) + (gap + (Block(n, body) + "\n"))
  {
    match doc {
      case Text(t) =>
      case Seg(t, m, b, rest) =>
        RenderAppend(rest, gap, n, body);
        RegroupLast(t, Block(m, b), Render(rest), gap + (Block(n, body) + "\n"));
    }
  }

  /** Injecting into the file is updating the document. */
  lemma InjectUpdates(doc: Doc, n: string, body: string)
    requires ValidName(n) && CleanFor(doc, n)
    ensures Inject(Render(doc), n, body) == Render(Update(doc, n, body))
  {
    FindInDoc(doc, n);
    if n in Blocks(doc) {
      var pre, current, post := SplitAtBlock(doc, n, body);
      PrefixBeforeFirst(Render(doc), Begin(n));
      HeadOf(pre, Block(n, current), post);
      InjectReplaces(pre, n, current, post, body);
    } else {
      RenderAppend(doc, Gap(Render(doc)), n, body);
      GapIsNewline(Render(doc), Block(n, body));
    }
  }

  lemma HeadOf(pre: string, block: string, post: string)
    ensures (pre + block + post)[..|pre|] == pre
  {
  }

  lemma GapIsNewline(content: string, block: string)
    ensures WithNewline(content) + "\n" + block + "\n" == content + (Gap(content) + (block + "\n"))
  {
  }

  /** An update touches one agent's block and no other. */
  lemma {:induction false} ReplaceBlocks(doc: Doc, n: string, body: string)
    requires n in Blocks(doc)
    ensures Blocks(Replace(doc, n, body)) == Blocks(doc)[n := body]
    ensures Texts(Replace(doc, n, body)) == Texts(doc)
  {
    if doc.name != n {
      ReplaceBlocks(doc.rest, n, body);
    }
  }

  lemma {:induction false} AppendBlocks(doc: Doc, gap: string, n: string, body: string)
    requires n !in Blocks(doc)
    ensures Blocks(Append(doc, gap, n, body)) == Blocks(doc)[n := body]
    ensures var last := |Texts(doc)| - 1;
      last >= 0 && Texts(Append(doc, gap, n, body)) == Texts(doc)[..last] + [Texts(doc)[last] + gap, "\n"]
  {
    if doc.Seg? {
      AppendBlocks(doc.rest, gap, n, body);
    }
  }

  lemma UpdateBlocks(doc: Doc, n: string, body: string)
    ensures Blocks(Update(doc, n, body)) == Blocks(doc)[n := body]
  {
    if n in Blocks(doc) {
      ReplaceBlocks(doc, n, body);
    } else {
      AppendBlocks(doc, Gap(Render(doc)), n, body);
    }
  }

  // ----- Any number of injections -----

  lemma {:induction false} ReplaceStaysClean(doc: Doc, n: string, body: string, k: string)
    requires CleanFor(doc, k) && BodyFits(body, n, k)
    ensures CleanFor(Replace(doc, n, body), k)
  {
    if doc.Seg? && doc.name != n {
      ReplaceStaysClean(doc.rest, n, body, k);
    }
  }

  lemma {:induction false} AppendStaysClean(doc: Doc, gap: string, n: string, body: string, k: string)
    requires ValidName(n) && ValidName(k) && CleanFor(doc, k)
    requires BodyFits(body, n, k) && gap in {"\n", "\n\n"}
    ensures CleanFor(Append(doc, gap, n, body), k)
  {
    match doc {
      case Text(t) =>
        GapStaysClean(t, gap, k);
        GapStaysClean("", "\n", k);
      case Seg(_, _, _, rest) =>
        AppendStaysClean(rest, gap, n, body, k);
    }
  }

  lemma GapStaysClean(t: string, gap: string, k: string)
    requires ValidName(k) && !Contains(t, Begin(k)) && gap in {"\n", "\n\n"}
    ensures !Contains(t + gap, Begin(k))
  {
    MarkerShape(k);
    var p := Begin(k);
    NotAcross(t, gap, p);
    NotStarting(gap, "", p);
    assert gap + "" == gap && t + gap + "" == t + gap;
    NotInJoined(t, gap, "", p);
  }

  // ----- The file -----

  class PromptFile {
    var content: string

    constructor (content: string)
      ensures this.content == content
    {
      this.content := content;
    }

    /** body is None when there is no agent, no configuration, or the agent stands alone. */
    method InjectReference(name: string, body: Option<string>)
      modifies this
      ensures content == if body.None? then old(content) else Inject(old(content), name, body.value)
    {
      if body.None? {
        return;
      }
      var marker, block := Begin(name), Block(name, body.value);
      if Find(content, marker, 0) >= 0 {
        content := ReplaceBlock(content, marker, block);
      } else {
        if content == "" || content[|content| - 1] != '\n' {
          content := content + "\n";
        }
        RegroupTail(content, block);
        content := content + ("\n" + block + "\n");
      }
    }
  }

  lemma RegroupTail(content: string, block: string)
    ensures content + ("\n" + block + "\n") == content + "\n" + block + "\n"
  {
  }

  // ----- Whole runs -----

  datatype Job = Job(name: string, body: string)

  function InjectAll(content: string, jobs: seq<Job>): string {
    if jobs == [] then content
    else Inject(InjectAll(content, jobs[..|jobs| - 1]), jobs[|jobs| - 1].name, jobs[|jobs| - 1].body)
  }

  function LastBodies(jobs: seq<Job>): map<string, string> {
    if jobs == [] then map[] else LastBodies(jobs[..|jobs| - 1])[jobs[|jobs| - 1].name := jobs[|jobs| - 1].body]
  }

  /** The document that the injections stand for. */
  function DocAfter(content: string, jobs: seq<Job>): Doc {
    if jobs == [] then Text(content)
    else Update(DocAfter(content, jobs[..|jobs| - 1]), jobs[|jobs| - 1].name, jobs[|jobs| - 1].body)
  }

  lemma {:induction false} DocHoldsLastBodies(content: string, jobs: seq<Job>)
    ensures Blocks(DocAfter(content, jobs)) == LastBodies(jobs)
  {
    if jobs != [] {
      var init, job := jobs[..|jobs| - 1], jobs[|jobs| - 1];
      DocHoldsLastBodies(content, init);
      UpdateBlocks(DocAfter(content, init), job.name, job.body);
    }
  }

  /** Only agents from names inject, and no body misleads the search for a block of one of them. */
  ghost predicate GoodJobs(jobs: seq<Job>, names: set<string>) {
    && (forall k :: k in names ==> ValidName(k))
    && (forall i :: 0 <= i < |jobs| ==> jobs[i].name in names)
    && (forall i, k :: 0 <= i < |jobs| && k in names ==> BodyFits(jobs[i].body, jobs[i].name, k))
  }

  /**
   After any run of injections into a file without markers, the file is a document in
   which every agent has exactly the body it injected last.
   */
  lemma {:induction false} InjectionsKeepAllBlocks(content: string, jobs: seq<Job>, names: set<string>)
    requires GoodJobs(jobs, names)
    requires forall k :: k in names ==> !Contains(content, Begin(k))
    ensures InjectAll(content, jobs) == Render(DocAfter(content, jobs))
    ensures Blocks(DocAfter(content, jobs)) == LastBodies(jobs)
    ensures forall k :: k in names ==> CleanFor(DocAfter(content, jobs), k)
  {
    DocHoldsLastBodies(content, jobs);
    if jobs != [] {
      var init, job := jobs[..|jobs| - 1], jobs[|jobs| - 1];
      InjectionsKeepAllBlocks(content, init, names);
      var before := DocAfter(content, init);
      InjectUpdates(before, job.name, job.body);
      forall k | k in names
        ensures CleanFor(Update(before, job.name, job.body), k)
      {
        UpdateStaysClean(before, job.name, job.body, k);
      }
    }
  }

  lemma UpdateStaysClean(doc: Doc, n: string, body: string, k: string)
    requires ValidName(n) && ValidName(k) && CleanFor(doc, k) && BodyFits(body, n, k)
    ensures CleanFor(Update(doc, n, body), k)
  {
    if n in Blocks(doc) {
      ReplaceStaysClean(doc, n, body, k);
    } else {
      AppendStaysClean(doc, Gap(Render(doc)), n, body, k);
    }
  }

  // ----- Exactly which bodies are safe -----

  /** Every run of injections of these jobs, in any order and number, updates the document. */
  ghost predicate RunsUpdate(content: string, pool: set<Job>) {
    forall jobs: seq<Job> :: (forall i :: 0 <= i < |jobs| ==> jobs[i] in pool) ==>
      InjectAll(content, jobs) == Render(DocAfter(content, jobs))
  }

  /** No body holds its own end marker or the begin marker of another agent. */
  ghost predicate AllFit(pool: set<Job>) {
    forall j, k :: j in pool && k in pool ==> BodyFits(j.body, j.name, k.name)
  }

  lemma OneJob(content: string, j: Job)
    requires ValidName(j.name) && !Contains(content, Begin(j.name))
    ensures InjectAll(content, [j]) == Inject(content, j.name, j.body) == Render(DocAfter(content, [j]))
    ensures Blocks(DocAfter(content, [j])) == map[j.name := j.body]
  {
    assert [j][..0] == [];
    DocHoldsLastBodies(content, [j]);
    InjectUpdates(Text(content), j.name, j.body);
  }

  lemma TwoJobs(content: string, j: Job, k: Job)
    requires ValidName(j.name) && !Contains(content, Begin(j.name))
    ensures InjectAll(content, [j, k]) == Inject(Inject(content, j.name, j.body), k.name, k.body)
    ensures DocAfter(content, [j, k]) == Update(DocAfter(content, [j]), k.name, k.body)
  {
    assert [j, k][..1] == [j];
    OneJob(content, j);
  }

  /** A body with its own end marker goes wrong when it is injected twice. */
  lemma OwnEndMisleads(content: string, j: Job)
    requires ValidName(j.name) && !Contains(content, Begin(j.name)) && Contains(j.body, End(j.name))
    ensures InjectAll(content, [j, j]) != Render(DocAfter(content, [j, j]))
  {
    TwoJobs(content, j, j);
    OneJob(content, j);
    InjectIsIdempotentIff(content, j.name, j.body);
    ReplaceSame(DocAfter(content, [j]), j.name);
  }

  lemma {:induction false} ReplaceSame(doc: Doc, n: string)
    requires n in Blocks(doc)
    ensures Replace(doc, n, Blocks(doc)[n]) == doc
  {
    if doc.name != n {
      ReplaceSame(doc.rest, n);
    }
  }

  lemma MarkerInBlock(pre: string, a: string, x: string, post: string, pat: string)
    requires Contains(x, pat)
    ensures 0 <= Find(pre + Block(a, x) + post, pat, 0)
    ensures Find(pre + Block(a, x) + post, pat, 0) + |pat| + |End(a)| <= |pre + Block(a, x)|
  {
    var k :| 0 <= k <= |x| && Occurs(x, pat, k);
    var head, tail := pre + Begin(a) + "\n", End(a) + post;
    OccursInHead(x, tail, pat, k);
    OccursInTail(head, x + tail, pat, k);
    assert pre + Block(a, x) + post == head + (x + tail);
  }

  /** A body with another agent's begin marker goes wrong when that agent injects next. */
  lemma OtherBeginMisleads(content: string, j: Job, k: Job)
    requires ValidName(j.name) && ValidName(k.name) && j.name != k.name
    requires !Contains(content, Begin(j.name)) && Contains(j.body, Begin(k.name))
    ensures InjectAll(content, [j, k]) != Render(DocAfter(content, [j, k]))
  {
    TwoJobs(content, j, k);
    OneJob(content, j);
    var doc, c := DocAfter(content, [j]), Inject(content, j.name, j.body);
    var pre, post := InjectLeavesBlock(content, j.name, j.body);
    MarkerInBlock(pre, j.name, j.body, post, Begin(k.name));
    InjectAddsAtMost(c, k.name, k.body);
    RenderAppend(doc, Gap(c), k.name, k.body);
  }

  /**
   Exactly when all runs of injections update the document, for any agents and bodies and
   any file without their markers: no body holds its own end marker or the begin marker
   of another of the agents.
   */
  lemma RunsUpdateIff(content: string, pool: set<Job>)
    requires forall j :: j in pool ==> ValidName(j.name) && !Contains(content, Begin(j.name))
    ensures RunsUpdate(content, pool) <==> AllFit(pool)
  {
    if AllFit(pool) {
      var names := set j | j in pool :: j.name;
      forall jobs: seq<Job> | forall i :: 0 <= i < |jobs| ==> jobs[i] in pool
        ensures InjectAll(content, jobs) == Render(DocAfter(content, jobs))
      {
        InjectionsKeepAllBlocks(content, jobs, names);
      }
    }
    if j, k :| j in pool && k in pool && !BodyFits(j.body, j.name, k.name) {
      if j.name == k.name {
        OwnEndMisleads(content, j);
        assert forall i :: 0 <= i < |[j, j]| ==> [j, j][i] in pool;
      } else {
        OtherBeginMisleads(content, j, k);
        assert forall i :: 0 <= i < |[j, k]| ==> [j, k][i] in pool;
      }
    }
  }

  // ----- Bodies with a block inside -----

  lemma NotBefore(pre: string, a: string, x: string, b: string)
    requires ValidName(a) && ValidName(b) && a != b
    requires !Contains(pre, Begin(b)) && !Contains(x, Begin(b))
    ensures !Contains(pre + (Begin(a) + ("\n" + x)), Begin(b))
  {
    MarkerShape(a);
    MarkerShape(b);
    var p := Begin(b);
    SkipTo("\n", x, p) by {
      NotStarting("\n", x, p);
    }
    SkipTo(Begin(a), "\n" + x, p) by {
      BeginIsNotOtherBegin(b, a, "\n" + x);
    }
    SkipTo(pre, Begin(a) + ("\n" + x), p) by {
      NotAcross(pre, Begin(a) + ("\n" + x), p);
    }
  }

  lemma RegroupInner(pre: string, begin: string, x: string, block: string, z: string, end: string, post: string)
    ensures pre + (begin + "\n" + (x + block + z) + end) + post
         == (pre + (begin + ("\n" + x))) + block + (z + end + post)
  {
  }

  /**
   The search does not know blocks: when the body of a holds a block of b, injecting for b
   changes the body of a, whatever the file holds after it.
   */
  lemma InnerBlockIsReplaced(pre: string, a: string, x: string, b: string, y: string, z: string, post: string,
                             body: string)
    requires ValidName(a) && ValidName(b) && a != b
    requires !Contains(pre, Begin(b)) && !Contains(x, Begin(b)) && !Contains(y, End(b))
    ensures Inject(pre + Block(a, x + Block(b, y) + z) + post, b, body)
         == pre + Block(a, x + Block(b, body) + z) + post
  {
    RegroupInner(pre, Begin(a), x, Block(b, y), z, End(a), post);
    RegroupInner(pre, Begin(a), x, Block(b, body), z, End(a), post);
    NotBefore(pre, a, x, b);
    InjectReplaces(pre + (Begin(a) + ("\n" + x)), b, y, z + End(a) + post, body);
  }

  lemma RegroupMiddle(pre: string, begin: string, x: string, other: string, end: string,
                      mid: string, y: string, otherEnd: string, post: string)
    ensures pre + (begin + "\n" + (x + other + "\n") + end) + mid + (other + "\n" + y + otherEnd) + post
         == pre + (begin + ("\n" + x)) + (other + "\n" + (end + mid + other + "\n" + y) + otherEnd) + post
  {
    var front := pre + (begin + ("\n" + x)) + (other + "\n");
    var back := mid + (other + "\n" + y + otherEnd) + post;
    assert pre + (begin + "\n" + (x + other + "\n") + end) == front + end;
    assert (other + "\n") + (end + mid + other + "\n" + y) + otherEnd
        == (other + "\n") + (end + (mid + (other + "\n" + y + otherEnd)));
    assert front + end + mid + (other + "\n" + y + otherEnd) + post == front + (end + back);
  }

  /**
   A bare begin marker is enough to do harm: when the body of a ends with the begin marker
   of b and the block of b follows, injecting for b deletes everything in between.
   */
  lemma BareMarkerSwallows(pre: string, a: string, x: string, b: string, mid: string, y: string, post: string,
                           body: string)
    requires ValidName(a) && ValidName(b) && a != b
    requires !Contains(pre, Begin(b)) && !Contains(x, Begin(b))
    requires !Contains(End(a) + mid + Begin(b) + "\n" + y, End(b))
    ensures Inject(pre + Block(a, x + Begin(b) + "\n") + mid + Block(b, y) + post, b, body)
         == pre + (Begin(a) + ("\n" + x)) + Block(b, body) + post
  {
    var head, gone := pre + (Begin(a) + ("\n" + x)), End(a) + mid + Begin(b) + "\n" + y;
    RegroupMiddle(pre, Begin(a), x, Begin(b), End(a), mid, y, End(b), post);
    NotBefore(pre, a, x, b);
    InjectReplaces(head, b, gone, post, body);
  }

  // ----- Exactly when a block survives another agent's injection -----

  /** Whatever b injects, the file still begins with pre and the block of a. */
  ghost predicate Survives(pre: string, a: string, x: string, post: string, b: string) {
    forall body: string :: pre + Block(a, x) <= Inject(pre + Block(a, x) + post, b, body)
  }

  lemma BlockIsPassed(pre: string, a: string, x: string, post: string, b: string)
    requires ValidName(a) && ValidName(b) && a != b && !Contains(pre, Begin(b)) && !Contains(x, Begin(b))
    ensures var found := Find(pre + Block(a, x) + post, Begin(b), 0);
      found < 0 || found >= |pre + Block(a, x)|
  {
    SegmentIsSkipped(pre, a, x, post, b);
    assert pre + Block(a, x) + post == pre + (Block(a, x) + post);
  }

  lemma KeepsBefore(content: string, n: string, body: string, k: nat)
    requires ValidName(n) && k <= |content|
    requires Find(content, Begin(n), 0) < 0 || Find(content, Begin(n), 0) >= k
    ensures content[..k] <= Inject(content, n, body)
  {
    if Find(content, Begin(n), 0) >= 0 {
      var pre, post := InjectMakesBlock(content, n, body);
      PrefixStays(content, k, pre, Block(n, body), post);
    } else {
      GapIsNewline(content, Block(n, body));
      PrefixStays(content, k, content, Gap(content) + (Block(n, body) + "\n"), "");
    }
  }

  lemma PrefixStays(content: string, k: nat, pre: string, block: string, post: string)
    requires k <= |pre| && pre <= content
    ensures k <= |content| && content[..k] <= pre + block + post
    ensures post == "" ==> content[..k] <= pre + block
  {
    assert pre[..k] == content[..k];
    assert (pre + block + post)[..k] == pre[..k] && (pre + block)[..k] == pre[..k];
  }

  /** The character of the file where the body would go. */
  lemma BodyIsSeen(content: string, n: string, c: char)
    requires ValidName(n) && Find(content, Begin(n), 0) >= 0
    ensures var at := Find(content, Begin(n), 0) + |Begin(n)| + 1;
      at < |Inject(content, n, [c])| && Inject(content, n, [c])[at] == c
  {
    var pre, post := InjectMakesBlock(content, n, [c]);
    BlockParts(pre, n, [c], post);
    var head := pre + Begin(n) + "\n";
    assert (head + ([c] + (End(n) + post)))[|head|] == c;
  }

  lemma MarkerKills(pre: string, a: string, x: string, post: string, b: string)
    requires ValidName(b) && Contains(x, Begin(b))
    ensures !Survives(pre, a, x, post, b)
  {
    var content, kept := pre + Block(a, x) + post, pre + Block(a, x);
    var at := Find(content, Begin(b), 0) + |Begin(b)| + 1;
    MarkerInBlock(pre, a, x, post, Begin(b));
    var c := if kept[at] == 'x' then 'y' else 'x';
    BodyIsSeen(content, b, c);
    assert !(kept <= Inject(content, b, [c]));
  }

  /** Exactly when the block of a survives whatever b injects: its body does not hold the begin marker of b. */
  lemma BlockSurvivesIff(pre: string, a: string, x: string, post: string, b: string)
    requires ValidName(a) && ValidName(b) && a != b && !Contains(pre, Begin(b))
    ensures Survives(pre, a, x, post, b) <==> !Contains(x, Begin(b))
  {
    if Contains(x, Begin(b)) {
      MarkerKills(pre, a, x, post, b);
    } else {
      var content, kept := pre + Block(a, x) + post, pre + Block(a, x);
      BlockIsPassed(pre, a, x, post, b);
      forall body: string
        ensures kept <= Inject(content, b, body)
      {
        KeepsBefore(content, b, body, |kept|);
        assert content[..|kept|] == kept;
      }
    }
  }
}
