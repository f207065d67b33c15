/** What each kind of first argument does to a command line (dxrk/commands/registry.py, parse_argv). */
module ArgOutcomes {
  // The parser is taken apart by the text of its first argument: every text is of one of six
  // shapes, and for each shape the result is stated in terms of that text, the table and the
  // result for the arguments behind it.

  import opened Wrappers
  import opened ArgParser
  import opened ArgRendering

  // ----- The words for yes and no -----

  /** v is the lower-case word w, in any mix of cases. */
  predicate Spells(v: string, w: string) {
    |v| == |w| && forall i :: 0 <= i < |v| ==>
      v[i] == w[i] || ('A' <= v[i] <= 'Z' && 'a' <= w[i] <= 'z' && w[i] as int - v[i] as int == 32)
  }

  predicate SaysYes(v: string) {
    Spells(v, "1") || Spells(v, "true") || Spells(v, "yes") || Spells(v, "on")
  }

  predicate SaysNo(v: string) {
    Spells(v, "0") || Spells(v, "false") || Spells(v, "no") || Spells(v, "off")
  }

  predicate NoCapitals(w: string) {
    forall i :: 0 <= i < |w| ==> !('A' <= w[i] <= 'Z')
  }

  lemma {:induction false} LowerSpells(v: string, w: string)
    requires NoCapitals(w)
    ensures Lower(v) == w <==> Spells(v, w)
  {
    if v != "" && w != "" {
      LowerSpells(v[1..], w[1..]);
      assert v == [v[0]] + v[1..] && w == [w[0]] + w[1..];
      SpellsCons(v[0], v[1..], w[0], w[1..]);
    }
  }

  lemma SpellsCons(a: char, v: string, b: char, w: string)
    ensures Spells([a] + v, [b] + w) <==> Spells([a], [b]) && Spells(v, w)
  {
    if Spells([a] + v, [b] + w) {
      assert ([a] + v)[0] == a && ([b] + w)[0] == b;
      forall i | 0 <= i < |v|
        ensures v[i] == w[i] || ('A' <= v[i] <= 'Z' && 'a' <= w[i] <= 'z' && w[i] as int - v[i] as int == 32)
      {
        assert ([a] + v)[i + 1] == v[i] && ([b] + w)[i + 1] == w[i];
      }
    }
  }

  /** Exactly these eight words are read, in any mix of cases. */
  lemma EightWords(v: string)
    ensures ReadBool(v) == Some(true) <==> SaysYes(v)
    ensures ReadBool(v) == Some(false) <==> SaysNo(v)
  {
    LowerSpells(v, "1");
    LowerSpells(v, "true");
    LowerSpells(v, "yes");
    LowerSpells(v, "on");
    LowerSpells(v, "0");
    LowerSpells(v, "false");
    LowerSpells(v, "no");
    LowerSpells(v, "off");
  }

  // ----- Flags of the table -----

  /** f is the first flag of the table with this name. */
  ghost predicate IsNamed(table: Table, name: string, f: Flag) {
    f.name == name && exists k :: 0 <= k < |table| && table[k] == f && forall i :: 0 <= i < k ==> table[i].name != name
  }

  /** f is the first flag of the table with this letter. */
  ghost predicate HasLetter(table: Table, c: char, f: Flag) {
    f.shorthand == [c] &&
    exists k :: 0 <= k < |table| && table[k] == f && forall i :: 0 <= i < k ==> table[i].shorthand != [c]
  }

  lemma {:induction false} LookupIsFirst(table: Table, name: string, f: Flag)
    ensures Lookup(table, name) == Some(f) <==> IsNamed(table, name, f)
  {
    if table != [] {
      LookupIsFirst(table[1..], name, f);
      if table[0].name == name {
        assert IsNamed(table, name, table[0]);
      } else {
        if k :| 0 <= k < |table| && table[k] == f && forall i :: 0 <= i < k ==> table[i].name != name {
          assert k > 0 || f.name != name;
          assert k > 0 ==> table[1..][k - 1] == f;
        }
        if k :| 0 <= k < |table[1..]| && table[1..][k] == f
                && forall i :: 0 <= i < k ==> table[1..][i].name != name {
          assert table[k + 1] == f;
          assert forall i :: 0 <= i < k + 1 ==> table[i].name != name;
        }
      }
    }
  }

  lemma {:induction false} LetterIsFirst(table: Table, c: char, f: Flag)
    ensures LookupShort(table, c) == Some(f) <==> HasLetter(table, c, f)
  {
    if table != [] {
      LetterIsFirst(table[1..], c, f);
      if table[0].shorthand == [c] {
        assert HasLetter(table, c, table[0]);
      } else {
        if k :| 0 <= k < |table| && table[k] == f && forall i :: 0 <= i < k ==> table[i].shorthand != [c] {
          assert k > 0 || f.shorthand != [c];
          assert k > 0 ==> table[1..][k - 1] == f;
        }
        if k :| 0 <= k < |table[1..]| && table[1..][k] == f
                && forall i :: 0 <= i < k ==> table[1..][i].shorthand != [c] {
          assert table[k + 1] == f;
          assert forall i :: 0 <= i < k + 1 ==> table[i].shorthand != [c];
        }
      }
    }
  }

  ghost predicate NoneNamed(table: Table, name: string) {
    forall f :: f in table ==> f.name != name
  }

  ghost predicate NoneLettered(table: Table, c: char) {
    forall f :: f in table ==> f.shorthand != [c]
  }

  lemma {:induction false} LookupFails(table: Table, name: string)
    ensures Lookup(table, name).None? <==> NoneNamed(table, name)
  {
    if table != [] {
      LookupFails(table[1..], name);
      assert table == [table[0]] + table[1..] && table[0] in table;
    }
  }

  lemma {:induction false} LetterFails(table: Table, c: char)
    ensures LookupShort(table, c).None? <==> NoneLettered(table, c)
  {
    if table != [] {
      LetterFails(table[1..], c);
      assert table == [table[0]] + table[1..] && table[0] in table;
    }
  }

  // ----- Plain arguments -----

  /** No flag: it does not begin with a hyphen, is one, or looks like a negative number. */
  predicate IsPlain(tok: string) {
    tok == "" || tok[0] != '-' || tok == "-" || tok[1] in "0123456789"
  }

  /** The arguments behind a plain one, with it in front. */
  function WithArgument(tok: string, rest: Outcome): Outcome {
    match rest
    case Failure(e) => Failure(e)
    case Success(p) => Success(Parsed([tok] + p.args, p.flags))
  }

  /** The arguments behind a flag, with its value; a later value for the same flag stays. */
  function WithFlag(name: string, value: Value, rest: Outcome): Outcome {
    match rest
    case Failure(e) => Failure(e)
    case Success(p) => Success(Parsed(p.args, if name in p.flags then p.flags else p.flags[name := value]))
  }

  lemma PlainIsKept(tok: string, rest: seq<string>, table: Table)
    requires IsPlain(tok)
    ensures Parse([tok] + rest, table) == WithArgument(tok, Parse(rest, table))
  {
    var argv := [tok] + rest;
    assert argv[1..] == rest;
    assert tok != "" && |tok| > 1 && tok[0] == '-' ==> IsDigit(tok[1]);
    var p := Parse(rest, table);
    if p.Success? {
      assert map[] + p.value.flags == p.value.flags;
    }
  }

  /** Arguments without flags come back as they are. */
  lemma {:induction false} PlainArgumentsAreKept(args: seq<string>, table: Table)
    requires forall i :: 0 <= i < |args| ==> IsPlain(args[i])
    ensures Parse(args, table) == Success(Parsed(args, map[]))
  {
    if args != [] {
      PlainArgumentsAreKept(args[1..], table);
      PlainIsKept(args[0], args[1..], table);
      assert args == [args[0]] + args[1..];
    }
  }

  /** Nothing behind the two hyphens is a flag. */
  lemma DashesEndFlags(rest: seq<string>, table: Table)
    ensures Parse(["--"] + rest, table) == Success(Parsed(rest, map[]))
  {
    var argv := ["--"] + rest;
    assert argv[1..] == rest && argv[|argv|..] == [];
    assert rest + [] == rest;
  }

  // ----- Long flags -----

  function LongText(name: string, value: Option<string>): string {
    "--" + name + if value.Some? then "=" + value.value else ""
  }

  lemma LongBody(name: string, value: Option<string>)
    requires '=' !in name
    ensures LongText(name, value)[2..] == name + (if value.Some? then "=" + value.value else "")
    ensures SplitAtEquals(LongText(name, value)[2..]) == (name, value)
  {
    if value.Some? {
      FirstEquals(name, value.value);
      assert name + ("=" + value.value) == name + "=" + value.value;
    } else {
      NoEquals(name);
      assert name + "" == name;
    }
  }

  lemma SetsFlag(argv: seq<string>, table: Table, name: string, value: Value, used: nat)
    requires 0 < used <= |argv| && Token(argv, table) == Sets(name, value, used)
    ensures Parse(argv, table) == WithFlag(name, value, Parse(argv[used..], table))
  {
    var p := Parse(argv[used..], table);
    if p.Success? {
      assert [] + p.value.args == p.value.args;
      assert map[name := value] + p.value.flags
          == if name in p.value.flags then p.value.flags else p.value.flags[name := value];
    }
  }

  /** A long flag outside the table. */
  lemma UnknownLongFails(name: string, value: Option<string>, rest: seq<string>, table: Table)
    requires '=' !in name && (name != "" || value.Some?) && NoneNamed(table, name)
    ensures Parse([LongText(name, value)] + rest, table) == Failure(UnknownFlag(name))
  {
    LongBody(name, value);
    LookupFails(table, name);
  }

  /** A long switch: on by itself, and otherwise as its word says. */
  lemma LongSwitch(f: Flag, value: Option<string>, rest: seq<string>, table: Table)
    requires '=' !in f.name && (f.name != "" || value.Some?) && IsNamed(table, f.name, f) && f.isBool
    ensures Parse([LongText(f.name, value)] + rest, table) ==
            if value.None? || SaysYes(value.value) then WithFlag(f.name, Switch(true), Parse(rest, table))
            else if SaysNo(value.value) then WithFlag(f.name, Switch(false), Parse(rest, table))
            else Failure(BadBool(f.name, value.value))
  {
    var argv := [LongText(f.name, value)] + rest;
    assert argv[1..] == rest;
    LongBody(f.name, value);
    LookupIsFirst(table, f.name, f);
    if value.None? {
      SetsFlag(argv, table, f.name, Switch(true), 1);
    } else {
      EightWords(value.value);
      var on := ReadBool(value.value);
      if on.Some? {
        SetsFlag(argv, table, f.name, Switch(on.value), 1);
      }
    }
  }

  /** A long flag with a value: behind the equals sign, or the next argument. */
  lemma LongValue(f: Flag, value: Option<string>, rest: seq<string>, table: Table)
    requires '=' !in f.name && (f.name != "" || value.Some?) && IsNamed(table, f.name, f) && !f.isBool
    ensures Parse([LongText(f.name, value)] + rest, table) ==
            if value.Some? then WithFlag(f.name, Text(value.value), Parse(rest, table))
            else if rest == [] then Failure(NeedsArgument(f.name))
            else WithFlag(f.name, Text(rest[0]), Parse(rest[1..], table))
  {
    var argv := [LongText(f.name, value)] + rest;
    assert argv[1..] == rest;
    LongBody(f.name, value);
    LookupIsFirst(table, f.name, f);
    if value.Some? {
      SetsFlag(argv, table, f.name, Text(value.value), 1);
    } else if rest != [] {
      assert argv[2..] == rest[1..];
      SetsFlag(argv, table, f.name, Text(rest[0]), 2);
    }
  }

  // ----- Short flags -----

  /** The letters of pre belong to the switches fs, one by one. */
  ghost predicate AreSwitches(table: Table, pre: string, fs: seq<Flag>) {
    |fs| == |pre| && forall i :: 0 <= i < |pre| ==> HasLetter(table, pre[i], fs[i]) && fs[i].isBool
  }

  function WithSwitches(fs: seq<Flag>, rest: Outcome): Outcome {
    if fs == [] then rest else WithFlag(fs[0].name, Switch(true), WithSwitches(fs[1..], rest))
  }

  /** Letters behind one hyphen: no long flag, no negative number, and not the form with an equals sign. */
  predicate IsLetters(body: string) {
    body != "" && body[0] !in "-0123456789" && !(|body| >= 2 && body[1] == '=')
  }

  function SwitchMap(fs: seq<Flag>): map<string, Value> {
    if fs == [] then map[] else map[fs[0].name := Switch(true)] + SwitchMap(fs[1..])
  }

  /** The effect r with these flags set first. */
  function SetFirst(flags: map<string, Value>, r: Result<Effect, Error>): Result<Effect, Error> {
    match r
    case Failure(e) => Failure(e)
    case Success(t) => Success(t.(flags := flags + t.flags))
  }

  lemma SetFirstTwice(a: map<string, Value>, b: map<string, Value>, r: Result<Effect, Error>)
    ensures SetFirst(a, SetFirst(b, r)) == SetFirst(a + b, r)
    ensures SetFirst(map[], r) == r
  {
    if r.Success? {
      assert a + (b + r.value.flags) == (a + b) + r.value.flags;
      assert map[] + r.value.flags == r.value.flags;
    }
  }

  lemma ClusterCons(table: Table, c: char, f: Flag, body: string, next: Option<string>)
    requires HasLetter(table, c, f) && f.isBool
    ensures Cluster([c] + body, next, table) == SetFirst(map[f.name := Switch(true)], Cluster(body, next, table))
  {
    LetterIsFirst(table, c, f);
    assert ([c] + body)[1..] == body;
  }

  lemma {:induction false} ClusterPrefix(table: Table, pre: string, fs: seq<Flag>, tail: string, next: Option<string>)
    requires AreSwitches(table, pre, fs)
    ensures Cluster(pre + tail, next, table) == SetFirst(SwitchMap(fs), Cluster(tail, next, table))
  {
    if pre == "" {
      assert pre + tail == tail;
      SetFirstTwice(map[], map[], Cluster(tail, next, table));
    } else {
      assert pre + tail == [pre[0]] + (pre[1..] + tail);
      ClusterPrefix(table, pre[1..], fs[1..], tail, next);
      ClusterCons(table, pre[0], fs[0], pre[1..] + tail, next);
      SetFirstTwice(map[fs[0].name := Switch(true)], SwitchMap(fs[1..]), Cluster(tail, next, table));
    }
  }

  lemma WithFlagPrepends(name: string, value: Value, rest: Outcome)
    ensures WithFlag(name, value, rest) == Prepend([], map[name := value], rest)
  {
    if rest.Success? {
      assert [] + rest.value.args == rest.value.args;
      assert map[name := value] + rest.value.flags
          == if name in rest.value.flags then rest.value.flags else rest.value.flags[name := value];
    }
  }

  lemma {:induction false} SwitchesPrepend(fs: seq<Flag>, flags: map<string, Value>, rest: Outcome)
    ensures Prepend([], SwitchMap(fs) + flags, rest) == WithSwitches(fs, Prepend([], flags, rest))
  {
    if fs == [] {
      assert map[] + flags == flags;
    } else {
      SwitchesPrepend(fs[1..], flags, rest);
      OneMoreSwitch(fs[0].name, SwitchMap(fs[1..]), flags, rest);
    }
  }

  lemma OneMoreSwitch(name: string, more: map<string, Value>, flags: map<string, Value>, rest: Outcome)
    ensures Prepend([], (map[name := Switch(true)] + more) + flags, rest)
         == WithFlag(name, Switch(true), Prepend([], more + flags, rest))
  {
    var first: map<string, Value> := map[name := Switch(true)];
    var none: seq<string> := [];
    WithFlagPrepends(name, Switch(true), Prepend([], more + flags, rest));
    PrependTwice(none, first, none, more + flags, rest);
    assert none + none == none && first + (more + flags) == (first + more) + flags;
  }

  lemma ShortToken(body: string, rest: seq<string>, table: Table)
    requires IsLetters(body)
    ensures Token(["-" + body] + rest, table) == Cluster(body, if rest == [] then None else Some(rest[0]), table)
  {
    var tok := "-" + body;
    assert tok[1..] == body && tok[1] == body[0] && !IsDigit(body[0]) && body[0] != '-' by {
      assert forall c :: IsDigit(c) ==> c in "0123456789";
    }
    assert ([tok] + rest)[1..] == rest;
  }

  /** Several switches in one argument are all on. */
  lemma ShortSwitches(pre: string, fs: seq<Flag>, rest: seq<string>, table: Table)
    requires IsLetters(pre) && AreSwitches(table, pre, fs)
    ensures Parse(["-" + pre] + rest, table) == WithSwitches(fs, Parse(rest, table))
  {
    var next := if rest == [] then None else Some(rest[0]);
    ShortToken(pre, rest, table);
    assert pre + "" == pre;
    ClusterPrefix(table, pre, fs, "", next);
    assert (["-" + pre] + rest)[1..] == rest;
    SwitchesPrepend(fs, map[], Parse(rest, table));
    PrependNothing(Parse(rest, table));
  }

  lemma PrependNothing(rest: Outcome)
    ensures Prepend([], map[], rest) == rest
  {
    if rest.Success? {
      assert [] + rest.value.args == rest.value.args && map[] + rest.value.flags == rest.value.flags;
    }
  }

  /** A letter outside the table, behind any switches. */
  lemma ShortUnknown(pre: string, fs: seq<Flag>, c: char, post: string, rest: seq<string>, table: Table)
    requires IsLetters(pre + ([c] + post)) && AreSwitches(table, pre, fs) && NoneLettered(table, c)
    ensures Parse(["-" + (pre + ([c] + post))] + rest, table) == Failure(UnknownShort(c))
  {
    ShortToken(pre + ([c] + post), rest, table);
    ClusterPrefix(table, pre, fs, [c] + post, if rest == [] then None else Some(rest[0]));
    LetterFails(table, c);
  }

  /** A flag with a value, behind any switches: the rest of the argument, or the next one. */
  lemma ShortValue(pre: string, fs: seq<Flag>, c: char, f: Flag, post: string, rest: seq<string>, table: Table)
    requires IsLetters(pre + ([c] + post)) && AreSwitches(table, pre, fs) && HasLetter(table, c, f) && !f.isBool
    ensures Parse(["-" + (pre + ([c] + post))] + rest, table) ==
            if post != "" then WithSwitches(fs, WithFlag(f.name, Text(post), Parse(rest, table)))
            else if rest == [] then Failure(ShortNeedsArgument(c))
            else WithSwitches(fs, WithFlag(f.name, Text(rest[0]), Parse(rest[1..], table)))
  {
    var argv := ["-" + (pre + ([c] + post))] + rest;
    ShortToken(pre + ([c] + post), rest, table);
    ClusterPrefix(table, pre, fs, [c] + post, if rest == [] then None else Some(rest[0]));
    LetterIsFirst(table, c, f);
    assert ([c] + post)[1..] == post;
    if post != "" || rest != [] {
      var value := Text(if post != "" then post else rest[0]);
      var behind := if post != "" then rest else rest[1..];
      assert argv[if post != "" then 1 else 2..] == behind;
      SwitchesPrepend(fs, map[f.name := value], Parse(behind, table));
      WithFlagPrepends(f.name, value, Parse(behind, table));
    }
  }

  /** The form with an equals sign: no switch takes a value. */
  lemma ShortEquals(c: char, v: string, rest: seq<string>, table: Table, f: Flag)
    requires c !in "-0123456789"
    ensures NoneLettered(table, c) ==> Parse([['-', c, '='] + v] + rest, table) == Failure(UnknownShort(c))
    ensures HasLetter(table, c, f) && f.isBool ==>
              Parse([['-', c, '='] + v] + rest, table) == Failure(NoValueAllowed(c))
    ensures HasLetter(table, c, f) && !f.isBool ==>
              Parse([['-', c, '='] + v] + rest, table) == WithFlag(f.name, Text(v), Parse(rest, table))
  {
    var tok := ['-', c, '='] + v;
    var argv := [tok] + rest;
    assert !IsDigit(c) by {
      assert forall d :: IsDigit(d) ==> d in "0123456789";
    }
    assert argv[1..] == rest && tok[1..] == [c, '='] + v && ([c, '='] + v)[2..] == v;
    LetterFails(table, c);
    LetterIsFirst(table, c, f);
    if HasLetter(table, c, f) && !f.isBool {
      SetsFlag(argv, table, f.name, Text(v), 1);
    }
  }

  // ----- There are no other arguments -----

  /** Every letter cluster is switches, alone or in front of an unknown letter or a flag with a value. */
  lemma {:induction false} EveryCluster(body: string, table: Table) returns (pre: string, fs: seq<Flag>, tail: string)
    ensures body == pre + tail && AreSwitches(table, pre, fs)
    ensures tail != "" ==>
              NoneLettered(table, tail[0]) || exists f :: HasLetter(table, tail[0], f) && !f.isBool
  {
    if body == "" {
      return "", [], "";
    }
    var found := LookupShort(table, body[0]);
    LetterFails(table, body[0]);
    if found.Some? {
      LetterIsFirst(table, body[0], found.value);
    }
    if found.None? || !found.value.isBool {
      return "", [], body;
    }
    pre, fs, tail := EveryCluster(body[1..], table);
    pre, fs := [body[0]] + pre, [found.value] + fs;
  }

  /** Every argument is plain, the two hyphens, a long flag, or one of the two short forms. */
  lemma EveryArgument(tok: string)
    ensures || IsPlain(tok) || tok == "--"
            || (exists name: string, value: Option<string> ::
                  '=' !in name && (name != "" || value.Some?) && tok == LongText(name, value))
            || (exists c, v :: c !in "-0123456789" && tok == ['-', c, '='] + v)
            || (exists body :: IsLetters(body) && tok == "-" + body)
  {
    if !IsPlain(tok) && tok != "--" {
      if tok[1] == '-' {
        var name, value := SplitFirst(tok[2..]);
        assert tok == "--" + tok[2..];
        assert tok == LongText(name, value);
      } else if |tok| > 2 && tok[2] == '=' {
        assert tok == ['-', tok[1], '='] + tok[3..];
      } else {
        assert tok == "-" + tok[1..] && IsLetters(tok[1..]);
      }
    }
  }

  lemma {:induction false} SplitFirst(body: string) returns (name: string, value: Option<string>)
    ensures '=' !in name && body == name + (if value.Some? then "=" + value.value else "")
  {
    if body == "" {
      return "", None;
    }
    if body[0] == '=' {
      assert body == "" + ("=" + body[1..]);
      return "", Some(body[1..]);
    }
    name, value := SplitFirst(body[1..]);
    assert body == [body[0]] + body[1..];
    name := [body[0]] + name;
  }
}
