/** Marker blocks in a prompt file (dxrk/agentbuilder.py). */
module Markers {
  // Every custom agent owns a block between two HTML comments that carry its name.

  // ----- Finding text -----

  predicate Occurs(s: string, pat: string, k: nat) {
    k + |pat| <= |s| && forall j :: 0 <= j < |pat| ==> s[k + j] == pat[j]
  }

  ghost predicate Contains(s: string, pat: string) {
    exists k :: 0 <= k <= |s| && Occurs(s, pat, k)
  }

  /** str.find from a start position. */
  function Find(s: string, pat: string, from: nat): (k: int)
    ensures k < 0 ==> k == -1 && forall i :: from <= i ==> !Occurs(s, pat, i)
    ensures k >= 0 ==> from <= k && k + |pat| <= |s| && Occurs(s, pat, k)
    ensures k >= 0 ==> forall i :: from <= i < k ==> !Occurs(s, pat, i)
    decreases |s| - from
  {
    if from + |pat| > |s| then -1
    else if Occurs(s, pat, from) then from
    else Find(s, pat, from + 1)
  }

  lemma FoundAt(s: string, pat: string, from: nat, k: nat)
    requires from <= k && Occurs(s, pat, k) && forall i :: from <= i < k ==> !Occurs(s, pat, i)
    ensures Find(s, pat, from) == k
  {
  }

  lemma OccursInTail(a: string, b: string, pat: string, k: nat)
    ensures Occurs(a + b, pat, |a| + k) <==> Occurs(b, pat, k)
  {
    if Occurs(b, pat, k) {
      forall j | 0 <= j < |pat|
        ensures (a + b)[|a| + k + j] == pat[j]
      {
      }
    }
    if Occurs(a + b, pat, |a| + k) {
      forall j | 0 <= j < |pat|
        ensures b[k + j] == pat[j]
      {
        assert (a + b)[|a| + k + j] == b[k + j];
      }
    }
  }

  lemma OccursInHead(a: string, b: string, pat: string, k: nat)
    requires k + |pat| <= |a|
    ensures Occurs(a + b, pat, k) <==> Occurs(a, pat, k)
  {
    assert forall i :: 0 <= i < |a| ==> (a + b)[i] == a[i];
  }

  /** pat does not start anywhere in a when a is followed by b. */
  ghost predicate NotIn(a: string, b: string, pat: string) {
    forall k :: 0 <= k < |a| ==> !Occurs(a + b, pat, k)
  }

  /** A character that pat does not have after its first place cannot be inside an occurrence. */
  lemma NotAcross(a: string, b: string, pat: string)
    requires !Contains(a, pat) && |pat| > 0
    requires b != "" ==> b[0] !in pat[1..]
    ensures NotIn(a, b, pat)
  {
    forall k | 0 <= k < |a|
      ensures !Occurs(a + b, pat, k)
    {
      if k + |pat| <= |a| {
        OccursInHead(a, b, pat, k);
      } else if b != "" {
        var j := |a| - k;
        assert j < |pat| ==> (a + b)[k + j] == b[0] && pat[j] == pat[1..][j - 1];
      }
    }
  }

  lemma NotInJoined(a: string, b: string, c: string, pat: string)
    requires NotIn(a, b + c, pat) && NotIn(b, c, pat)
    ensures NotIn(a + b, c, pat)
  {
    assert a + b + c == a + (b + c);
    forall k | 0 <= k < |a + b|
      ensures !Occurs(a + b + c, pat, k)
    {
      if k >= |a| {
        OccursInTail(a, b + c, pat, k - |a|);
      }
    }
  }

  /** Without the first character of pat there is no start. */
  lemma NotStarting(a: string, b: string, pat: string)
    requires |pat| > 0 && pat[0] !in a
    ensures NotIn(a, b, pat)
  {
    forall k | 0 <= k < |a|
      ensures !Occurs(a + b, pat, k)
    {
      assert (a + b)[k] == (a + b)[k + 0] == a[k] && a[k] in a;
    }
  }

  lemma SkipTo(a: string, b: string, pat: string)
    requires NotIn(a, b, pat)
    ensures Find(a + b, pat, 0) == if Find(b, pat, 0) < 0 then -1 else |a| + Find(b, pat, 0)
  {
    var k := Find(b, pat, 0);
    if k >= 0 {
      OccursInTail(a, b, pat, k);
      forall i | 0 <= i < |a| + k
        ensures !Occurs(a + b, pat, i)
      {
        if i >= |a| {
          OccursInTail(a, b, pat, i - |a|);
        }
      }
      FoundAt(a + b, pat, 0, |a| + k);
    } else {
      var i := Find(a + b, pat, 0);
      if i >= 0 {
        OccursInTail(a, b, pat, i - |a|);
      }
    }
  }

  // ----- Names and markers -----

  predicate NameChar(c: char) {
    'a' <= c <= 'z' || '0' <= c <= '9' || c == '-'
  }

  /** What _title_to_name produces, when it is not empty. */
  predicate ValidName(n: string) {
    n != "" && forall i :: 0 <= i < |n| ==> NameChar(n[i])
  }

  const BEGIN := "<!-- dxrk:custom-agent:"
  const END := "<!-- /dxrk:custom-agent:"
  const CLOSE := " -->"

  function Begin(n: string): (m: string)
    ensures |m| == 27 + |n|
  {
    BEGIN + n + CLOSE
  }

  function End(n: string): (m: string)
    ensures |m| == 28 + |n|
  {
    END + n + CLOSE
  }

  function Block(n: string, body: string): string {
    Begin(n) + "\n" + body + End(n)
  }

  lemma MarkerShape(n: string)
    requires ValidName(n)
    ensures Begin(n)[0] == '<' && '<' !in Begin(n)[1..] && '\n' !in Begin(n)
    ensures End(n)[0] == '<' && '<' !in End(n)[1..] && '\n' !in End(n)
    ensures Begin(n)[5] == 'd' && End(n)[5] == '/'
  {
    BeginShape(n);
    EndShape(n);
  }

  lemma BeginShape(n: string)
    requires ValidName(n)
    ensures Begin(n)[0] == '<' && '<' !in Begin(n)[1..] && '\n' !in Begin(n) && Begin(n)[5] == 'd'
  {
    MarkerTail(BEGIN, n);
    assert Begin(n)[..|BEGIN|] == BEGIN;
  }

  lemma EndShape(n: string)
    requires ValidName(n)
    ensures End(n)[0] == '<' && '<' !in End(n)[1..] && '\n' !in End(n) && End(n)[5] == '/'
  {
    MarkerTail(END, n);
    assert End(n)[..|END|] == END;
  }

  lemma MarkerTail(open: string, n: string)
    requires ValidName(n) && |open| > 0 && '<' !in open[1..] && '\n' !in open
    ensures '<' !in (open + n + CLOSE)[1..] && '\n' !in open + n + CLOSE
  {
    assert forall c :: c in n ==> NameChar(c);
    assert (open + n + CLOSE)[1..] == open[1..] + n + CLOSE;
    assert '<' !in CLOSE && '\n' !in CLOSE;
  }

  function ExtractName(marker: string): string {
    if |marker| >= |BEGIN| && marker[..|BEGIN|] == BEGIN && |marker| >= |CLOSE| && marker[|marker| - |CLOSE|..] == CLOSE
    then (if |BEGIN| <= |marker| - |CLOSE| then marker[|BEGIN|..|marker| - |CLOSE|] else "")
    else ""
  }

  lemma ExtractedName(n: string)
    ensures ExtractName(Begin(n)) == n
  {
    var m := Begin(n);
    assert m[..|BEGIN|] == BEGIN;
    assert m[|m| - |CLOSE|..] == CLOSE;
    assert m[|BEGIN|..|m| - |CLOSE|] == n;
  }

  predicate NameChars(n: string) {
    forall i :: 0 <= i < |n| ==> NameChar(n[i])
  }

  /** The first blank ends the name. */
  lemma {:induction false} BlankEndsName(n: string, m: string, t: string)
    requires NameChars(n) && NameChars(m) && n + " " <= t && m + " " <= t
    ensures n == m
  {
    assert t[0] == (n + " ")[0] == (m + " ")[0];
    if n != "" && m != "" {
      assert n[1..] + " " == (n + " ")[1..] && m[1..] + " " == (m + " ")[1..];
      BlankEndsName(n[1..], m[1..], t[1..]);
    }
  }

  lemma NameFollows(n: string, s: string)
    requires Occurs(s, Begin(n), 0)
    ensures |s| >= |BEGIN| && n + " " <= s[|BEGIN|..]
  {
    assert s[..|Begin(n)|] == Begin(n) by {
      assert forall j :: 0 <= j < |Begin(n)| ==> s[0 + j] == Begin(n)[j];
    }
    assert Begin(n)[|BEGIN|..] == n + CLOSE;
    assert (n + CLOSE)[..|n| + 1] == n + " ";
    assert s[|BEGIN|..][..|n| + 1] == s[..|Begin(n)|][|BEGIN|..][..|n| + 1];
  }

  /** The begin marker of one name does not open with that of another. */
  lemma DifferentBegin(n: string, m: string, rest: string)
    requires ValidName(n) && ValidName(m) && n != m
    ensures !Occurs(Begin(m) + rest, Begin(n), 0)
  {
    var s := Begin(m) + rest;
    OccursInHead(Begin(m), rest, Begin(m), 0);
    NameFollows(m, s);
    if Occurs(s, Begin(n), 0) {
      NameFollows(n, s);
      BlankEndsName(n, m, s[|BEGIN|..]);
      assert false;
    }
  }

  // ----- Injecting a block -----

  function Min(a: nat, b: nat): nat {
    if a < b then a else b
  }

  /** The program's _replace_block, branch by branch. */
  function ReplaceBlock(content: string, marker: string, newBlock: string): string {
    ReplaceMarked(content, marker, End(ExtractName(marker)), newBlock)
  }

  function ReplaceMarked(content: string, marker: string, endMarker: string, newBlock: string): string {
    var start := Find(content, marker, 0);
    if start < 0 then content + "\n" + newBlock
    else
      var end := Find(content, endMarker, start);
      if end < 0 then
        var lineEnd := Find(content, "\n", start);
        if lineEnd < 0 then content[..start] + newBlock
        else content[..start] + newBlock + content[Min(start + lineEnd, |content|)..]
      else content[..start] + newBlock + content[end + |endMarker|..]
  }

  function WithNewline(content: string): string {
    if content != "" && content[|content| - 1] == '\n' then content else content + "\n"
  }

  function Inject(content: string, n: string, body: string): string {
    if Find(content, Begin(n), 0) >= 0 then ReplaceBlock(content, Begin(n), Block(n, body))
    else WithNewline(content) + "\n" + Block(n, body) + "\n"
  }

  /** A block of n right after pre is found where it begins. */
  lemma BlockIsFound(pre: string, n: string, rest: string)
    requires ValidName(n) && !Contains(pre, Begin(n))
    ensures Find(pre + (Begin(n) + rest), Begin(n), 0) == |pre|
  {
    MarkerShape(n);
    NotAcross(pre, Begin(n) + rest, Begin(n));
    SkipTo(pre, Begin(n) + rest, Begin(n));
    OccursInHead(Begin(n), rest, Begin(n), 0);
    FoundAt(Begin(n) + rest, Begin(n), 0, 0);
  }

  /** Its end is found behind a body that does not contain it. */
  lemma EndIsFound(n: string, body: string, post: string)
    requires ValidName(n) && !Contains(body, End(n))
    ensures Find(Begin(n) + ("\n" + (body + (End(n) + post))), End(n), 0) == |Begin(n)| + 1 + |body|
  {
    MarkerShape(n);
    var e, t := End(n), End(n) + post;
    OccursInHead(e, post, e, 0);
    FoundAt(t, e, 0, 0);
    NotAcross(body, t, e);
    SkipTo(body, t, e);
    NotStarting("\n", body + t, e);
    SkipTo("\n", body + t, e);
    BeginIsNotEnd(n, n, "\n" + (body + t));
    SkipTo(Begin(n), "\n" + (body + t), e);
  }

  lemma BeginIsNotEnd(n: string, m: string, rest: string)
    requires ValidName(n) && ValidName(m)
    ensures NotIn(Begin(m), rest, End(n))
  {
    MarkerShape(n);
    MarkerShape(m);
    var s := Begin(m) + rest;
    forall k | 0 <= k < |Begin(m)|
      ensures !Occurs(s, End(n), k)
    {
      if k > 0 {
        assert s[k] == Begin(m)[1..][k - 1];
        assert s[k + 0] != End(n)[0];
      } else {
        assert s[0 + 5] == Begin(m)[5];
      }
    }
  }

  lemma FindFrom(pre: string, t: string, pat: string)
    ensures Find(pre + t, pat, |pre|) == if Find(t, pat, 0) < 0 then -1 else |pre| + Find(t, pat, 0)
  {
    var s := pre + t;
    forall i: nat
      ensures Occurs(s, pat, |pre| + i) <==> Occurs(t, pat, i)
    {
      OccursInTail(pre, t, pat, i);
    }
    FindShifted(s, t, pat, |pre|);
  }

  lemma FindShifted(s: string, t: string, pat: string, shift: nat)
    requires forall i: nat {:trigger Occurs(t, pat, i)} :: Occurs(s, pat, shift + i) <==> Occurs(t, pat, i)
    ensures Find(s, pat, shift) == if Find(t, pat, 0) < 0 then -1 else shift + Find(t, pat, 0)
  {
    var k := Find(t, pat, 0);
    if k >= 0 {
      forall i | shift <= i < shift + k
        ensures !Occurs(s, pat, i)
      {
        assert !Occurs(t, pat, i - shift);
      }
      FoundAt(s, pat, shift, shift + k);
    } else {
      forall i: nat | shift <= i
        ensures !Occurs(s, pat, i)
      {
        assert !Occurs(t, pat, i - shift);
      }
    }
  }

  /** Both markers found: what is between them, and they themselves, make room for the block. */
  lemma InjectBetween(content: string, n: string, body: string, start: nat, end: nat)
    requires Find(content, Begin(n), 0) == start && Find(content, End(n), start) == end
    ensures start <= end && end + |End(n)| <= |content|
    ensures Inject(content, n, body) == content[..start] + Block(n, body) + content[end + |End(n)|..]
  {
    ReplaceBetween(content, Begin(n), End(n), Block(n, body), start, end);
    InjectFinds(content, n, body);
  }

  lemma InjectFinds(content: string, n: string, body: string)
    requires Find(content, Begin(n), 0) >= 0
    ensures Inject(content, n, body) == ReplaceMarked(content, Begin(n), End(n), Block(n, body))
  {
    ExtractedName(n);
  }

  lemma ReplaceBetween(content: string, marker: string, endMarker: string, newBlock: string, start: nat, end: nat)
    requires Find(content, marker, 0) == start && Find(content, endMarker, start) == end
    ensures start <= end && end + |endMarker| <= |content|
    ensures ReplaceMarked(content, marker, endMarker, newBlock)
         == content[..start] + newBlock + content[end + |endMarker|..]
  {
  }

  /** Injecting replaces the block of that name and keeps all text before and after. */
  lemma InjectReplaces(pre: string, n: string, current: string, post: string, body: string)
    requires ValidName(n) && !Contains(pre, Begin(n)) && !Contains(current, End(n))
    ensures Inject(pre + Block(n, current) + post, n, body) == pre + Block(n, body) + post
  {
    var tail := Begin(n) + ("\n" + (current + (End(n) + post)));
    var c := pre + tail;
    assert pre + Block(n, current) + post == c;
    BlockIsFound(pre, n, "\n" + (current + (End(n) + post)));
    EndIsFound(n, current, post);
    FindFrom(pre, tail, End(n));
    InjectBetween(c, n, body, |pre|, |pre| + |Begin(n)| + 1 + |current|);
    var cut := |pre| + |Begin(n)| + 1 + |current| + |End(n)|;
    assert c[..|pre|] == pre;
    assert c[cut..] == post by {
      assert c == pre + Block(n, current) + post;
      assert |pre + Block(n, current)| == cut;
    }
  }

  /** The first injection appends: the old content stays a prefix, up to one newline. */
  lemma InjectAppends(content: string, n: string, body: string)
    requires ValidName(n) && !Contains(content, Begin(n))
    ensures Inject(content, n, body) == WithNewline(content) + "\n" + Block(n, body) + "\n"
    ensures !Contains(WithNewline(content) + "\n", Begin(n))
  {
    var pre := WithNewline(content) + "\n";
    MarkerShape(n);
    var added := if content != "" && content[|content| - 1] == '\n' then "\n" else "\n\n";
    assert pre == content + added;
    assert '\n' !in Begin(n)[1..];
    NotAcross(content, added, Begin(n));
    NotStarting(added, "", Begin(n));
    assert added + "" == added && content + added + "" == content + added;
    NotInJoined(content, added, "", Begin(n));
  }

  /** Whatever follows an existing begin marker, a well-formed block takes its place. */
  lemma InjectMakesBlock(content: string, n: string, body: string) returns (pre: string, post: string)
    requires ValidName(n) && Find(content, Begin(n), 0) >= 0
    ensures pre == content[..Find(content, Begin(n), 0)]
    ensures Inject(content, n, body) == pre + Block(n, body) + post && !Contains(pre, Begin(n))
  {
    var start := Find(content, Begin(n), 0);
    pre := content[..start];
    PrefixBeforeFirst(content, Begin(n));
    var end := Find(content, End(n), start);
    if end >= 0 {
      InjectBetween(content, n, body, start, end);
      post := content[end + |End(n)|..];
    } else {
      post := InjectUpToLine(content, n, body, start);
    }
  }

  /** The end marker is missing: what is left of the content follows the block. */
  lemma InjectUpToLine(content: string, n: string, body: string, start: nat) returns (post: string)
    requires Find(content, Begin(n), 0) == start && Find(content, End(n), start) < 0
    ensures start <= |content| && Inject(content, n, body) == content[..start] + Block(n, body) + post
  {
    post := ReplaceUpToLine(content, Begin(n), End(n), Block(n, body), start);
    InjectFinds(content, n, body);
  }

  lemma ReplaceUpToLine(content: string, marker: string, endMarker: string, newBlock: string, start: nat)
    returns (post: string)
    requires Find(content, marker, 0) == start && Find(content, endMarker, start) < 0
    ensures start <= |content|
    ensures ReplaceMarked(content, marker, endMarker, newBlock) == content[..start] + newBlock + post
  {
    var lineEnd := Find(content, "\n", start);
    if lineEnd < 0 {
      post := "";
      Empty(content[..start] + newBlock);
    } else {
      post := content[Min(start + lineEnd, |content|)..];
    }
  }

  lemma Empty(s: string)
    ensures s + "" == s
  {
  }

  /** The block that an injection leaves, whatever the file held before. */
  lemma InjectLeavesBlock(content: string, n: string, body: string) returns (pre: string, post: string)
    requires ValidName(n)
    ensures Inject(content, n, body) == pre + Block(n, body) + post && !Contains(pre, Begin(n))
  {
    if Find(content, Begin(n), 0) < 0 {
      InjectAppends(content, n, body);
      return WithNewline(content) + "\n", "\n";
    }
    pre, post := InjectMakesBlock(content, n, body);
  }

  /** With a begin marker there, an injection adds at most the new block. */
  lemma InjectAddsAtMost(content: string, n: string, body: string)
    requires ValidName(n) && Find(content, Begin(n), 0) >= 0
    ensures |Inject(content, n, body)| <= |content| + |Block(n, body)|
  {
    var start := Find(content, Begin(n), 0);
    var end := Find(content, End(n), start);
    InjectFinds(content, n, body);
    if end >= 0 {
      InjectBetween(content, n, body, start, end);
    }
  }

  /** The text behind any end marker after the begin marker stays. */
  lemma InjectKeepsAtLeast(content: string, n: string, body: string, start: nat, e: nat)
    requires Find(content, Begin(n), 0) == start && start <= e && Occurs(content, End(n), e)
    ensures |Inject(content, n, body)| >= start + |Block(n, body)| + (|content| - e - |End(n)|)
  {
    InjectBetween(content, n, body, start, Find(content, End(n), start));
  }

  lemma BlockParts(pre: string, n: string, body: string, post: string)
    ensures pre + Block(n, body) + post == pre + Begin(n) + "\n" + (body + (End(n) + post))
    ensures pre + Block(n, body) + post == pre + (Begin(n) + ("\n" + (body + (End(n) + post))))
  {
    Reassociate(pre, Begin(n), "\n", body, End(n), post);
  }

  lemma Reassociate(a: string, b: string, c: string, d: string, e: string, f: string)
    ensures a + (b + c + d + e) + f == a + b + c + (d + (e + f)) == a + (b + (c + (d + (e + f))))
  {
  }

  /** An end marker inside the body ends the search too early. */
  lemma EarlyEndRepeats(pre: string, n: string, body: string, post: string)
    requires ValidName(n) && !Contains(pre, Begin(n)) && Contains(body, End(n))
    ensures |Inject(pre + Block(n, body) + post, n, body)| > |pre + Block(n, body) + post|
  {
    var k :| 0 <= k <= |body| && Occurs(body, End(n), k);
    var head, tail := pre + Begin(n) + "\n", End(n) + post;
    var c := pre + Block(n, body) + post;
    BlockParts(pre, n, body, post);
    OccursInHead(body, tail, End(n), k);
    OccursInTail(head, body + tail, End(n), k);
    BlockIsFound(pre, n, "\n" + (body + tail));
    InjectKeepsAtLeast(c, n, body, |pre|, |head| + k);
  }

  /** Exactly when injecting twice is injecting once, whatever the file holds: the body has no end marker of its own. */
  lemma InjectIsIdempotentIff(content: string, n: string, body: string)
    requires ValidName(n)
    ensures Inject(Inject(content, n, body), n, body) == Inject(content, n, body) <==> !Contains(body, End(n))
  {
    var pre, post := InjectLeavesBlock(content, n, body);
    if Contains(body, End(n)) {
      EarlyEndRepeats(pre, n, body, post);
    } else {
      InjectReplaces(pre, n, body, post, body);
    }
  }

  lemma PrefixBeforeFirst(s: string, pat: string)
    requires |pat| > 0 && Find(s, pat, 0) >= 0
    ensures !Contains(s[..Find(s, pat, 0)], pat)
  {
    var k := Find(s, pat, 0);
    var pre := s[..k];
    assert s == pre + s[k..];
    forall i | 0 <= i <= |pre|
      ensures !Occurs(pre, pat, i)
    {
      if i + |pat| <= |pre| {
        OccursInHead(pre, s[k..], pat, i);
      }
    }
  }

  /**
   A begin marker without its end: the rest of the file after the marker's line is
   kept exactly when the marker is the first thing in the file.
   */
  lemma MissingEndKeepsTextIffFirst(content: string, n: string, body: string)
    requires Find(content, Begin(n), 0) >= 0
    requires Find(content, End(n), Find(content, Begin(n), 0)) < 0
    requires Find(content, "\n", Find(content, Begin(n), 0)) >= 0
    ensures var start := Find(content, Begin(n), 0);
      Inject(content, n, body) == content[..start] + Block(n, body) + content[Find(content, "\n", start)..]
      <==> start == 0
  {
    ExtractedName(n);
    var start := Find(content, Begin(n), 0);
    var lineEnd := Find(content, "\n", start);
    var kept := content[Min(start + lineEnd, |content|)..];
    var head := content[..start] + Block(n, body);
    assert |head + kept| == |head| + |kept| && |head + content[lineEnd..]| == |head| + |content[lineEnd..]|;
  }

  /** The text of a block. */
  lemma BlockText(n: string, body: string)
    ensures Block(n, body) == "<!-- dxrk:custom-agent:" + n + " -->\n" + body + "<!-- /dxrk:custom-agent:" + n + " -->"
  {
    var open, close := "<!-- dxrk:custom-agent:", "<!-- /dxrk:custom-agent:";
    assert " -->" + "\n" == " -->\n";
    assert Begin(n) + "\n" == open + n + " -->\n";
    assert open + n + " -->\n" + body + (close + n + " -->") == open + n + " -->\n" + body + close + n + " -->";
  }
}
