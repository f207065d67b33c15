/**
 Text that comes in blocks of lines: a block begins at a start line and reaches up to the
 next start line or end line. Lines outside blocks are passed over.

 Both parsers of git output (dxrk/git.py) read such text.
 */
module LineBlocks {
  import opened Sequences

  /** The first index from i on that begins or ends a block. */
  function BlockEnd<T>(starts: T -> bool, ends: T -> bool, lines: seq<T>, i: nat): (n: nat)
    requires i <= |lines|
    ensures i <= n <= |lines|
    decreases |lines| - i
  {
    if i == |lines| || starts(lines[i]) || ends(lines[i]) then i else BlockEnd(starts, ends, lines, i + 1)
  }

  function Blocks<T>(starts: T -> bool, ends: T -> bool, lines: seq<T>): seq<seq<T>>
    decreases |lines|
  {
    if lines == [] then []
    else if !starts(lines[0]) then Blocks(starts, ends, lines[1..])
    else
      var n := BlockEnd(starts, ends, lines, 1);
      [lines[..n]] + Blocks(starts, ends, lines[n..])
  }

  /** Whether a further line would still belong to the last block. */
  predicate Open<T>(starts: T -> bool, ends: T -> bool, lines: seq<T>)
    decreases |lines|
  {
    if lines == [] then false
    else if !starts(lines[0]) then Open(starts, ends, lines[1..])
    else
      var n := BlockEnd(starts, ends, lines, 1);
      n == |lines| || Open(starts, ends, lines[n..])
  }

  lemma {:induction false} BlockEndAppend<T>(starts: T -> bool, ends: T -> bool, a: seq<T>, b: seq<T>, i: nat)
    requires i <= |a|
    ensures BlockEnd(starts, ends, a + b, i)
         == if BlockEnd(starts, ends, a, i) < |a| then BlockEnd(starts, ends, a, i)
            else BlockEnd(starts, ends, a + b, |a|)
    decreases |a| - i
  {
    if i < |a| && !starts(a[i]) && !ends(a[i]) {
      BlockEndAppend(starts, ends, a, b, i + 1);
    }
  }

  /** Cutting the text at the beginning or end of a block cuts the list of blocks. */
  lemma {:induction false} BlocksAppend<T>(starts: T -> bool, ends: T -> bool, a: seq<T>, b: seq<T>)
    requires b == [] || starts(b[0]) || ends(b[0])
    ensures Blocks(starts, ends, a + b) == Blocks(starts, ends, a) + Blocks(starts, ends, b)
    decreases |a|
  {
    if a == [] {
      assert a + b == b;
    } else if !starts(a[0]) {
      BlocksAppend(starts, ends, a[1..], b);
      assert (a + b)[1..] == a[1..] + b;
    } else {
      var n := BlockEnd(starts, ends, a, 1);
      BlockEndAppend(starts, ends, a, b, 1);
      BlocksAppend(starts, ends, a[n..], b);
      assert (a + b)[..n] == a[..n] && (a + b)[n..] == a[n..] + b;
      var rest, more := Blocks(starts, ends, a[n..]), Blocks(starts, ends, b);
      assert [a[..n]] + (rest + more) == ([a[..n]] + rest) + more;
    }
  }

  function Extended<T>(blocks: seq<seq<T>>, x: T): seq<seq<T>>
    requires blocks != []
  {
    blocks[..|blocks| - 1] + [blocks[|blocks| - 1] + [x]]
  }

  /** A line that neither begins nor ends a block joins the last block if that is open, and is dropped if not. */
  lemma {:induction false} JoinLine<T>(starts: T -> bool, ends: T -> bool, lines: seq<T>, x: T)
    requires !starts(x) && !ends(x)
    ensures Open(starts, ends, lines) ==> Blocks(starts, ends, lines) != []
    ensures Blocks(starts, ends, lines + [x])
         == if Open(starts, ends, lines) then Extended(Blocks(starts, ends, lines), x) else Blocks(starts, ends, lines)
    ensures Open(starts, ends, lines + [x]) == Open(starts, ends, lines)
    decreases |lines|
  {
    if lines == [] {
      assert lines + [x] == [x] && [x][1..] == [];
    } else if !starts(lines[0]) {
      JoinLine(starts, ends, lines[1..], x);
      assert (lines + [x])[1..] == lines[1..] + [x];
    } else {
      var n := BlockEnd(starts, ends, lines, 1);
      BlockEndAppend(starts, ends, lines, [x], 1);
      if n < |lines| {
        JoinLine(starts, ends, lines[n..], x);
        assert (lines + [x])[..n] == lines[..n] && (lines + [x])[n..] == lines[n..] + [x];
      } else {
        var all := lines + [x];
        assert BlockEnd(starts, ends, all, |lines|) == |all|;
        assert all[..|all|] == all && all[|all|..] == [] && lines[..n] == lines && lines[n..] == [];
      }
    }
  }

  lemma StartOpens<T>(starts: T -> bool, ends: T -> bool, lines: seq<T>, x: T)
    requires starts(x)
    ensures Blocks(starts, ends, lines + [x]) == Blocks(starts, ends, lines) + [[x]]
    ensures Open(starts, ends, lines + [x])
    decreases |lines|
  {
    BlocksAppend(starts, ends, lines, [x]);
    assert [x][..1] == [x] && [x][1..] == [];
    assert Blocks(starts, ends, [x]) == [[x]] + Blocks(starts, ends, [x][1..]);
    assert Open(starts, ends, [x]);
    OpenAppend(starts, ends, lines, [x]);
  }

  lemma EndCloses<T>(starts: T -> bool, ends: T -> bool, lines: seq<T>, x: T)
    requires ends(x) && !starts(x)
    ensures Blocks(starts, ends, lines + [x]) == Blocks(starts, ends, lines)
    ensures !Open(starts, ends, lines + [x])
  {
    BlocksAppend(starts, ends, lines, [x]);
    assert [x][1..] == [];
    assert Blocks(starts, ends, [x]) == [] && !Open(starts, ends, [x]);
    OpenAppend(starts, ends, lines, [x]);
  }

  lemma {:induction false} OpenAppend<T>(starts: T -> bool, ends: T -> bool, a: seq<T>, b: seq<T>)
    requires b != [] && (starts(b[0]) || ends(b[0]))
    ensures Open(starts, ends, a + b) == Open(starts, ends, b)
    decreases |a|
  {
    if a == [] {
      assert a + b == b;
    } else if !starts(a[0]) {
      OpenAppend(starts, ends, a[1..], b);
      assert (a + b)[1..] == a[1..] + b;
    } else {
      var n := BlockEnd(starts, ends, a, 1);
      BlockEndAppend(starts, ends, a, b, 1);
      OpenAppend(starts, ends, a[n..], b);
      assert (a + b)[n..] == a[n..] + b;
    }
  }

  // ----- What the blocks contain -----

  function Heads<T>(blocks: seq<seq<T>>): seq<T>
    requires forall i :: 0 <= i < |blocks| ==> blocks[i] != []
  {
    if blocks == [] then [] else [blocks[0][0]] + Heads(blocks[1..])
  }

  ghost predicate Headed<T>(starts: T -> bool, blocks: seq<seq<T>>) {
    forall i :: 0 <= i < |blocks| ==> blocks[i] != [] && starts(blocks[i][0])
  }

  lemma {:induction false} BlocksAreHeaded<T>(starts: T -> bool, ends: T -> bool, lines: seq<T>)
    ensures Headed(starts, Blocks(starts, ends, lines))
    decreases |lines|
  {
    if lines == [] {
    } else if !starts(lines[0]) {
      BlocksAreHeaded(starts, ends, lines[1..]);
      assert Blocks(starts, ends, lines) == Blocks(starts, ends, lines[1..]);
    } else {
      var n := BlockEnd(starts, ends, lines, 1);
      BlocksAreHeaded(starts, ends, lines[n..]);
      assert lines[..n][0] == lines[0];
    }
  }

  lemma {:induction false} NoStartInside<T>(starts: T -> bool, ends: T -> bool, lines: seq<T>, i: nat)
    requires i <= |lines|
    ensures Filter(starts, lines[i..BlockEnd(starts, ends, lines, i)]) == []
    decreases |lines| - i
  {
    var n := BlockEnd(starts, ends, lines, i);
    if i < n {
      NoStartInside(starts, ends, lines, i + 1);
      assert lines[i..n] == [lines[i]] + lines[i + 1..n];
    }
  }

  /** Exactly one block per start line, in order. */
  lemma {:induction false} HeadsAreStarts<T>(starts: T -> bool, ends: T -> bool, lines: seq<T>)
    ensures Headed(starts, Blocks(starts, ends, lines))
    ensures Heads(Blocks(starts, ends, lines)) == Filter(starts, lines)
    decreases |lines|
  {
    BlocksAreHeaded(starts, ends, lines);
    if lines == [] {
    } else if !starts(lines[0]) {
      HeadsAreStarts(starts, ends, lines[1..]);
    } else {
      var n := BlockEnd(starts, ends, lines, 1);
      HeadsAreStarts(starts, ends, lines[n..]);
      assert Blocks(starts, ends, lines)[1..] == Blocks(starts, ends, lines[n..]);
      NoStartInside(starts, ends, lines, 1);
      assert lines[1..] == lines[1..n] + lines[n..];
      FilterAppend(starts, lines[1..n], lines[n..]);
    }
  }

  predicate Never<T>(x: T) {
    false
  }

  function FirstStart<T>(starts: T -> bool, lines: seq<T>): (i: nat)
    ensures i <= |lines|
  {
    if lines == [] || starts(lines[0]) then 0 else FirstStart(starts, lines[1..]) + 1
  }

  /** Without end lines no line is lost: the blocks make up the text from the first start line on. */
  lemma {:induction false} BlocksKeepLines<T>(starts: T -> bool, lines: seq<T>)
    ensures Flatten(Blocks(starts, Never, lines)) == lines[FirstStart(starts, lines)..]
    decreases |lines|
  {
    if lines == [] {
    } else if !starts(lines[0]) {
      BlocksKeepLines(starts, lines[1..]);
    } else {
      var n := BlockEnd(starts, Never, lines, 1);
      BlocksKeepLines(starts, lines[n..]);
      assert Blocks(starts, Never, lines)[1..] == Blocks(starts, Never, lines[n..]);
      assert n < |lines| ==> starts(lines[n]) by {
        BlockEndIsStart(starts, lines, 1);
      }
      assert lines[..n] + lines[n..] == lines;
    }
  }

  lemma {:induction false} BlockEndIsStart<T>(starts: T -> bool, lines: seq<T>, i: nat)
    requires i <= |lines|
    ensures BlockEnd(starts, Never, lines, i) < |lines| ==> starts(lines[BlockEnd(starts, Never, lines, i)])
    decreases |lines| - i
  {
    if i < |lines| && !starts(lines[i]) {
      BlockEndIsStart(starts, lines, i + 1);
    }
  }

  /** Mapping after the last block has grown by a line. */
  lemma MapExtended<T, U>(f: seq<T> -> U, blocks: seq<seq<T>>, x: T) returns (block: seq<T>)
    requires blocks != []
    ensures block == blocks[|blocks| - 1]
    ensures Map(f, blocks) == Map(f, blocks[..|blocks| - 1]) + [f(block)]
    ensures Map(f, Extended(blocks, x)) == Map(f, blocks[..|blocks| - 1]) + [f(block + [x])]
  {
    block := blocks[|blocks| - 1];
    var init := blocks[..|blocks| - 1];
    assert blocks == init + [block];
    MapSnoc(f, init, block);
    MapSnoc(f, init, block + [x]);
  }
}
