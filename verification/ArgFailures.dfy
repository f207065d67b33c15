/** Exactly when a command line is refused (dxrk/commands/registry.py, parse_argv). */
module ArgFailures {
  // A command line is refused at the first argument that is refused; flags with a value may take
  // the argument behind them along.

  import opened Wrappers
  import opened ArgParser
  import opened ArgRendering
  import opened ArgOutcomes

  /** A switch whose word is none of the eight, or a missing value. */
  predicate BadValue(f: Flag, value: Option<string>, last: bool) {
    if f.isBool then value.Some? && !SaysYes(value.value) && !SaysNo(value.value) else value.None? && last
  }

  ghost predicate IsLongFlag(tok: string, name: string, value: Option<string>) {
    '=' !in name && (name != "" || value.Some?) && tok == LongText(name, value)
  }

  /** Switches fs, and behind them a letter c that is none; post is the rest. */
  ghost predicate IsCluster(tok: string, table: Table, pre: string, fs: seq<Flag>, c: char, post: string) {
    IsLetters(pre + ([c] + post)) && AreSwitches(table, pre, fs) && tok == "-" + (pre + ([c] + post))
  }

  ghost predicate IsEquals(tok: string, c: char, v: string) {
    c !in "-0123456789" && tok == ['-', c, '='] + v
  }

  // ----- What is refused -----

  ghost predicate LongRefused(tok: string, last: bool, table: Table) {
    exists name, value :: IsLongFlag(tok, name, value) && NameRefused(table, name, value, last)
  }

  ghost predicate NameRefused(table: Table, name: string, value: Option<string>, last: bool) {
    NoneNamed(table, name) || exists f :: IsNamed(table, name, f) && BadValue(f, value, last)
  }

  ghost predicate ClusterRefused(tok: string, last: bool, table: Table) {
    exists pre, fs, c, post :: IsCluster(tok, table, pre, fs, c, post) && LetterRefused(table, c, post == "" && last)
  }

  ghost predicate LetterRefused(table: Table, c: char, missing: bool) {
    NoneLettered(table, c) || (missing && exists f :: HasLetter(table, c, f) && !f.isBool)
  }

  ghost predicate EqualsRefused(tok: string, table: Table) {
    exists c, v :: IsEquals(tok, c, v) && (NoneLettered(table, c) || exists f :: HasLetter(table, c, f) && f.isBool)
  }

  /** An unknown flag or letter, a word that is neither yes nor no, a missing value, or a value for a short switch. */
  ghost predicate Refused(tok: string, last: bool, table: Table) {
    LongRefused(tok, last, table) || ClusterRefused(tok, last, table) || EqualsRefused(tok, table)
  }

  ghost predicate LongTakes(tok: string, table: Table) {
    exists name, f :: IsLongFlag(tok, name, None) && IsNamed(table, name, f) && !f.isBool
  }

  ghost predicate ClusterTakes(tok: string, table: Table) {
    exists pre, fs, c, f :: IsCluster(tok, table, pre, fs, c, "") && HasLetter(table, c, f) && !f.isBool
  }

  /** A flag with a value that is not in the same argument. */
  ghost predicate TakesNext(tok: string, table: Table) {
    LongTakes(tok, table) || ClusterTakes(tok, table)
  }

  ghost function Used(argv: seq<string>, table: Table): (n: nat)
    requires argv != []
    ensures 0 < n <= |argv|
  {
    if |argv| > 1 && TakesNext(argv[0], table) then 2 else 1
  }

  /** Some argument in front of the two hyphens that is no flag's value is refused. */
  ghost predicate IsRefused(argv: seq<string>, table: Table)
    decreases |argv|
  {
    argv != [] && argv[0] != "--" &&
    (Refused(argv[0], |argv| == 1, table) || IsRefused(argv[Used(argv, table)..], table))
  }

  // ----- One argument -----

  /** The first argument is refused exactly as r says, and otherwise uses up n arguments. */
  ghost predicate Does(argv: seq<string>, table: Table, r: bool, n: nat)
    requires argv != []
  {
    var t := Token(argv, table);
    (t.Failure? <==> r) && (t.Success? ==> t.value.used == n)
  }

  lemma LongDoes(argv: seq<string>, table: Table, name: string, value: Option<string>)
    requires argv != [] && IsLongFlag(argv[0], name, value)
    ensures NoneNamed(table, name) ==> Does(argv, table, true, 0)
    ensures forall f :: IsNamed(table, name, f) ==>
              Does(argv, table, BadValue(f, value, |argv| == 1), if f.isBool || value.Some? then 1 else 2)
  {
    LongBody(name, value);
    LookupFails(table, name);
    if value.Some? {
      EightWords(value.value);
    }
    forall f | IsNamed(table, name, f)
      ensures Lookup(table, name) == Some(f)
    {
      LookupIsFirst(table, name, f);
    }
  }

  lemma ClusterDoes(argv: seq<string>, table: Table, pre: string, fs: seq<Flag>, c: char, post: string)
    requires argv != [] && IsCluster(argv[0], table, pre, fs, c, post)
    ensures NoneLettered(table, c) ==> Does(argv, table, true, 0)
    ensures forall f :: HasLetter(table, c, f) && !f.isBool ==>
              Does(argv, table, post == "" && |argv| == 1, if post != "" then 1 else 2)
  {
    assert argv == [argv[0]] + argv[1..];
    ShortToken(pre + ([c] + post), argv[1..], table);
    ClusterPrefix(table, pre, fs, [c] + post, Next(argv));
    assert ([c] + post)[1..] == post;
    LetterFails(table, c);
    forall f | HasLetter(table, c, f)
      ensures LookupShort(table, c) == Some(f)
    {
      LetterIsFirst(table, c, f);
    }
  }

  lemma SwitchesDo(argv: seq<string>, table: Table, pre: string, fs: seq<Flag>)
    requires argv != [] && IsLetters(pre) && AreSwitches(table, pre, fs) && argv[0] == "-" + pre
    ensures Does(argv, table, false, 1)
  {
    assert argv == [argv[0]] + argv[1..] && pre + "" == pre;
    ShortToken(pre, argv[1..], table);
    ClusterPrefix(table, pre, fs, "", Next(argv));
  }

  lemma EqualsDoes(argv: seq<string>, table: Table, c: char, v: string)
    requires argv != [] && IsEquals(argv[0], c, v)
    ensures NoneLettered(table, c) ==> Does(argv, table, true, 0)
    ensures forall f :: HasLetter(table, c, f) ==> Does(argv, table, f.isBool, 1)
  {
    assert !IsDigit(c) by {
      assert forall d :: IsDigit(d) ==> d in "0123456789";
    }
    assert argv[0][1..] == [c, '='] + v;
    LetterFails(table, c);
    forall f | HasLetter(table, c, f)
      ensures LookupShort(table, c) == Some(f)
    {
      LetterIsFirst(table, c, f);
    }
  }

  lemma PlainDoes(argv: seq<string>, table: Table)
    requires argv != [] && IsPlain(argv[0])
    ensures Does(argv, table, false, 1)
  {
    assert forall c :: IsDigit(c) <==> c in "0123456789";
  }

  // ----- Both directions -----

  lemma RefusedFails(argv: seq<string>, table: Table)
    requires argv != [] && Refused(argv[0], |argv| == 1, table)
    ensures Token(argv, table).Failure?
  {
    var tok, last := argv[0], |argv| == 1;
    if LongRefused(tok, last, table) {
      var name, value :| IsLongFlag(tok, name, value) && NameRefused(table, name, value, last);
      LongDoes(argv, table, name, value);
    } else if ClusterRefused(tok, last, table) {
      var pre, fs, c, post :| IsCluster(tok, table, pre, fs, c, post) && LetterRefused(table, c, post == "" && last);
      ClusterDoes(argv, table, pre, fs, c, post);
    } else {
      var c, v :|
        IsEquals(tok, c, v) && (NoneLettered(table, c) || exists f :: HasLetter(table, c, f) && f.isBool);
      EqualsDoes(argv, table, c, v);
    }
  }

  lemma TakesUsesTwo(argv: seq<string>, table: Table)
    requires |argv| > 1 && TakesNext(argv[0], table)
    ensures Does(argv, table, false, 2)
  {
    if LongTakes(argv[0], table) {
      var name, f :| IsLongFlag(argv[0], name, None) && IsNamed(table, name, f) && !f.isBool;
      LongDoes(argv, table, name, None);
    } else {
      var pre, fs, c, f :| IsCluster(argv[0], table, pre, fs, c, "") && HasLetter(table, c, f) && !f.isBool;
      ClusterDoes(argv, table, pre, fs, c, "");
    }
  }

  /** A failure is a refusal, and an argument that uses two takes the next one. */
  ghost predicate Explained(argv: seq<string>, table: Table)
    requires argv != []
  {
    var t := Token(argv, table);
    && (t.Failure? ==> Refused(argv[0], |argv| == 1, table))
    && (t.Success? ==> t.value.used == 1 || (t.value.used == 2 && |argv| > 1 && TakesNext(argv[0], table)))
  }

  lemma LongExplained(argv: seq<string>, table: Table, name: string, value: Option<string>)
    requires argv != [] && IsLongFlag(argv[0], name, value)
    ensures Explained(argv, table)
  {
    LongDoes(argv, table, name, value);
    LookupFails(table, name);
    var found := Lookup(table, name);
    if found.Some? {
      LookupIsFirst(table, name, found.value);
    }
    assert NameRefused(table, name, value, |argv| == 1) ==> LongRefused(argv[0], |argv| == 1, table);
  }

  lemma ClusterExplained(argv: seq<string>, table: Table, body: string)
    requires argv != [] && IsLetters(body) && argv[0] == "-" + body
    ensures Explained(argv, table)
  {
    var pre, fs, tail := EveryCluster(body, table);
    if tail == "" {
      assert body == pre;
      SwitchesDo(argv, table, pre, fs);
    } else {
      var c, post := tail[0], tail[1..];
      assert body == pre + ([c] + post);
      assert IsCluster(argv[0], table, pre, fs, c, post);
      ClusterDoes(argv, table, pre, fs, c, post);
      assert LetterRefused(table, c, post == "" && |argv| == 1) ==> ClusterRefused(argv[0], |argv| == 1, table);
    }
  }

  lemma EqualsExplained(argv: seq<string>, table: Table, c: char, v: string)
    requires argv != [] && IsEquals(argv[0], c, v)
    ensures Explained(argv, table)
  {
    EqualsDoes(argv, table, c, v);
    LetterFails(table, c);
    var found := LookupShort(table, c);
    if found.Some? {
      LetterIsFirst(table, c, found.value);
    }
  }

  lemma ArgumentExplained(argv: seq<string>, table: Table)
    requires argv != [] && argv[0] != "--"
    ensures Explained(argv, table)
  {
    var tok := argv[0];
    EveryArgument(tok);
    if IsPlain(tok) {
      PlainDoes(argv, table);
    } else if name: string, value: Option<string> :|
      '=' !in name && (name != "" || value.Some?) && tok == LongText(name, value) {
      LongExplained(argv, table, name, value);
    } else if c, v :| c !in "-0123456789" && tok == ['-', c, '='] + v {
      EqualsExplained(argv, table, c, v);
    } else {
      var body :| IsLetters(body) && tok == "-" + body;
      ClusterExplained(argv, table, body);
    }
  }

  /** What one argument does, exactly. */
  lemma ArgumentDoes(argv: seq<string>, table: Table)
    requires argv != [] && argv[0] != "--"
    ensures Does(argv, table, Refused(argv[0], |argv| == 1, table), Used(argv, table))
  {
    ArgumentExplained(argv, table);
    if Refused(argv[0], |argv| == 1, table) {
      RefusedFails(argv, table);
    }
    if |argv| > 1 && TakesNext(argv[0], table) {
      TakesUsesTwo(argv, table);
    }
  }

  /** Exactly when parsing fails: some argument, read as a flag, is refused. */
  lemma {:induction false} ParseFailsIff(argv: seq<string>, table: Table)
    ensures Parse(argv, table).Failure? <==> IsRefused(argv, table)
    decreases |argv|
  {
    if argv != [] {
      if argv[0] == "--" {
        assert argv == ["--"] + argv[1..];
        DashesEndFlags(argv[1..], table);
      } else {
        ArgumentDoes(argv, table);
        ParseFailsIff(argv[Used(argv, table)..], table);
      }
    }
  }
}
