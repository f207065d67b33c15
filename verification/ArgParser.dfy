/** Parsing command-line flags (dxrk/commands/registry.py, parse_argv). */
module ArgParser {
  import opened Wrappers

  datatype Flag = Flag(name: string, isBool: bool, shorthand: string)

  /** The values of the flag dict, in its order; a flag is stored under its own name. */
  type Table = seq<Flag>

  datatype Value = Switch(on: bool) | Text(text: string)

  datatype Error =
    | UnknownFlag(name: string)
    | UnknownShort(short: char)
    | BadBool(name: string, value: string)
    | NeedsArgument(name: string)
    | ShortNeedsArgument(short: char)
    | NoValueAllowed(short: char)

  datatype Parsed = Parsed(args: seq<string>, flags: map<string, Value>)

  type Outcome = Result<Parsed, Error>

  /** The flag that satisfies a lookup, if any: the first one in the table. */
  function Lookup(table: Table, name: string): (f: Option<Flag>)
    ensures f.Some? ==> f.value in table && f.value.name == name
  {
    if table == [] then None
    else if table[0].name == name then Some(table[0])
    else Lookup(table[1..], name)
  }

  function LookupShort(table: Table, short: char): (f: Option<Flag>)
    ensures f.Some? ==> f.value in table && f.value.shorthand == [short]
  {
    if table == [] then None
    else if table[0].shorthand == [short] then Some(table[0])
    else LookupShort(table[1..], short)
  }

  /** body.split("=", 1), when there is a "=". */
  function SplitAtEquals(body: string): (string, Option<string>) {
    if body == "" then ("", None)
    else if body[0] == '=' then ("", Some(body[1..]))
    else
      var (name, value) := SplitAtEquals(body[1..]);
      ([body[0]] + name, value)
  }

  function LowerChar(c: char): char {
    if 'A' <= c <= 'Z' then (c as int + 32) as char else c
  }

  function Lower(s: string): string {
    if s == "" then "" else [LowerChar(s[0])] + Lower(s[1..])
  }

  function ReadBool(value: string): Option<bool> {
    var lowered := Lower(value);
    if lowered in ["1", "true", "yes", "on"] then Some(true)
    else if lowered in ["0", "false", "no", "off"] then Some(false)
    else None
  }

  // ----- What one token does -----

  /** The arguments it adds, the flags it sets, and how many tokens it uses up. */
  datatype Effect = Effect(args: seq<string>, flags: map<string, Value>, used: nat)

  function Sets(name: string, value: Value, used: nat): Result<Effect, Error> {
    Success(Effect([], map[name := value], used))
  }

  function LongFlag(body: string, next: Option<string>, table: Table): Result<Effect, Error> {
    var (name, value) := SplitAtEquals(body);
    match Lookup(table, name)
    case None => Failure(UnknownFlag(name))
    case Some(flag) =>
      if flag.isBool then
        match value
        case None => Sets(name, Switch(true), 1)
        case Some(v) =>
          (match ReadBool(v)
           case None => Failure(BadBool(name, v))
           case Some(on) => Sets(name, Switch(on), 1))
      else
        match value
        case Some(v) => Sets(name, Text(v), 1)
        case None => if next.None? then Failure(NeedsArgument(name)) else Sets(name, Text(next.value), 2)
  }

  /** A cluster of short flags: switches combine, a value flag takes the rest or the next token. */
  function Cluster(body: string, next: Option<string>, table: Table): Result<Effect, Error> {
    if body == "" then Success(Effect([], map[], 1))
    else
      match LookupShort(table, body[0])
      case None => Failure(UnknownShort(body[0]))
      case Some(flag) =>
        if flag.isBool then
          match Cluster(body[1..], next, table)
          case Failure(e) => Failure(e)
          case Success(more) => Success(more.(flags := map[flag.name := Switch(true)] + more.flags))
        else if body[1..] != "" then Sets(flag.name, Text(body[1..]), 1)
        else if next.None? then Failure(ShortNeedsArgument(body[0]))
        else Sets(flag.name, Text(next.value), 2)
  }

  function ShortFlags(body: string, next: Option<string>, table: Table): Result<Effect, Error>
    requires body != ""
  {
    if |body| >= 2 && body[1] == '=' then
      match LookupShort(table, body[0])
      case None => Failure(UnknownShort(body[0]))
      case Some(flag) =>
        if flag.isBool then Failure(NoValueAllowed(body[0])) else Sets(flag.name, Text(body[2..]), 1)
    else Cluster(body, next, table)
  }

  predicate IsDigit(c: char) {
    '0' <= c <= '9'
  }

  predicate IsLong(tok: string) {
    |tok| >= 2 && tok[0] == '-' && tok[1] == '-'
  }

  predicate IsShort(tok: string) {
    |tok| > 1 && tok[0] == '-' && !IsDigit(tok[1])
  }

  function Next(argv: seq<string>): Option<string> {
    if |argv| > 1 then Some(argv[1]) else None
  }

  function Token(argv: seq<string>, table: Table): (r: Result<Effect, Error>)
    requires argv != []
    ensures r.Success? ==> 0 < r.value.used <= |argv|
  {
    var tok := argv[0];
    if IsLong(tok) then
      if |tok| == 2 then Success(Effect(argv[1..], map[], |argv|))
      else LongFlag(tok[2..], Next(argv), table)
    else if IsShort(tok) then
      ClusterUses(tok[1..], Next(argv), table);
      ShortFlags(tok[1..], Next(argv), table)
    else Success(Effect([tok], map[], 1))
  }

  lemma {:induction false} ClusterUses(body: string, next: Option<string>, table: Table)
    ensures var r := Cluster(body, next, table);
      r.Success? ==> r.value.args == [] && (r.value.used == 1 || (r.value.used == 2 && next.Some?))
  {
    if body != "" {
      ClusterUses(body[1..], next, table);
    }
  }

  // ----- The whole command line -----

  function Prepend(args: seq<string>, flags: map<string, Value>, rest: Outcome): Outcome {
    match rest
    case Failure(e) => Failure(e)
    case Success(p) => Success(Parsed(args + p.args, flags + p.flags))
  }

  function Parse(argv: seq<string>, table: Table): Outcome
    decreases |argv|
  {
    if argv == [] then Success(Parsed([], map[]))
    else
      match Token(argv, table)
      case Failure(e) => Failure(e)
      case Success(t) => Prepend(t.args, t.flags, Parse(argv[t.used..], table))
  }

  // ----- The loops -----

  /** Flags read so far, followed by what the rest of the cluster does, are what it does as a whole. */
  ghost predicate ClusterSoFar(body: string, next: Option<string>, table: Table,
                               before: map<string, Value>, parsed: map<string, Value>, j: nat)
    requires j <= |body|
  {
    var whole, rest := Cluster(body, next, table), Cluster(body[j..], next, table);
    match rest {
      case Failure(e) => whole == Failure(e)
      case Success(t) => whole.Success? && whole.value.used == t.used && before + whole.value.flags == parsed + t.flags
    }
  }

  lemma NextInCluster(body: string, next: Option<string>, table: Table,
                      before: map<string, Value>, parsed: map<string, Value>, j: nat)
    requires j < |body| && ClusterSoFar(body, next, table, before, parsed, j)
    requires LookupShort(table, body[j]).Some? && LookupShort(table, body[j]).value.isBool
    ensures var name := LookupShort(table, body[j]).value.name;
      ClusterSoFar(body, next, table, before, parsed[name := Switch(true)], j + 1)
  {
    assert body[j..][0] == body[j] && body[j..][1..] == body[j + 1..];
    var setting := map[LookupShort(table, body[j]).value.name := Switch(true)];
    var rest := Cluster(body[j + 1..], next, table);
    if rest.Success? {
      assert parsed + (setting + rest.value.flags) == (parsed + setting) + rest.value.flags;
    }
  }

  method ParseCluster(body: string, next: Option<string>, table: Table, before: map<string, Value>)
    returns (err: Option<Error>, parsed: map<string, Value>, usesNext: bool)
    ensures match Cluster(body, next, table)
            case Failure(e) => err == Some(e)
            case Success(t) => err == None && parsed == before + t.flags && (usesNext <==> t.used == 2)
  {
    ClusterUses(body, next, table);
    parsed, usesNext := before, false;
    var j := 0;
    assert body[0..] == body;
    while j < |body|
      invariant 0 <= j <= |body| && ClusterSoFar(body, next, table, before, parsed, j)
    {
      var short := body[j];
      assert body[j..][0] == short && body[j..][1..] == body[j + 1..];
      var flag := LookupShort(table, short);
      if flag.None? {
        return Some(UnknownShort(short)), parsed, false;
      }
      if flag.value.isBool {
        NextInCluster(body, next, table, before, parsed, j);
        parsed := parsed[flag.value.name := Switch(true)];
        j := j + 1;
      } else {
        var rest := body[j + 1..];
        if rest != "" {
          return None, parsed[flag.value.name := Text(rest)], false;
        }
        if next.None? {
          return Some(ShortNeedsArgument(short)), parsed, false;
        }
        return None, parsed[flag.value.name := Text(next.value)], true;
      }
    }
    assert body[|body|..] == "";
    return None, parsed, false;
  }

  /** The result so far, followed by parsing from i, is the whole result. */
  ghost predicate SoFar(argv: seq<string>, table: Table, args: seq<string>, flags: map<string, Value>, i: nat)
    requires i <= |argv|
  {
    Parse(argv, table) == Prepend(args, flags, Parse(argv[i..], table))
  }

  lemma AfterToken(argv: seq<string>, table: Table, args: seq<string>, flags: map<string, Value>, i: nat)
    requires i < |argv| && SoFar(argv, table, args, flags, i)
    ensures match Token(argv[i..], table)
            case Failure(e) => Parse(argv, table) == Failure(e)
            case Success(t) => i + t.used <= |argv| && SoFar(argv, table, args + t.args, flags + t.flags, i + t.used)
  {
    var r := Token(argv[i..], table);
    if r.Success? {
      assert argv[i..][r.value.used..] == argv[i + r.value.used..];
      PrependTwice(args, flags, r.value.args, r.value.flags, Parse(argv[i + r.value.used..], table));
    }
  }

  lemma PrependTwice(a: seq<string>, f: map<string, Value>, b: seq<string>, g: map<string, Value>, rest: Outcome)
    ensures Prepend(a, f, Prepend(b, g, rest)) == Prepend(a + b, f + g, rest)
  {
    if rest.Success? {
      assert a + (b + rest.value.args) == a + b + rest.value.args;
      assert f + (g + rest.value.flags) == f + g + rest.value.flags;
    }
  }

  lemma AtEnd(argv: seq<string>, table: Table, args: seq<string>, flags: map<string, Value>)
    requires SoFar(argv, table, args, flags, |argv|)
    ensures Parse(argv, table) == Success(Parsed(args, flags))
  {
    assert argv[|argv|..] == [];
    assert args + [] == args && flags + map[] == flags;
  }

  method ParseLong(body: string, next: Option<string>, table: Table, before: map<string, Value>)
    returns (err: Option<Error>, parsed: map<string, Value>, usesNext: bool)
    ensures match LongFlag(body, next, table)
            case Failure(e) => err == Some(e)
            case Success(t) => err == None && t.args == [] && parsed == before + t.flags
                               && t.used == (if usesNext then 2 else 1)
  {
    parsed, usesNext := before, false;
    var (name, value) := SplitAtEquals(body);
    var flag := Lookup(table, name);
    if flag.None? {
      return Some(UnknownFlag(name)), parsed, false;
    }
    if flag.value.isBool {
      if value.None? {
        parsed := parsed[name := Switch(true)];
      } else {
        var on := ReadBool(value.value);
        if on.None? {
          return Some(BadBool(name, value.value)), parsed, false;
        }
        parsed := parsed[name := Switch(on.value)];
      }
    } else {
      if value.None? {
        if next.None? {
          return Some(NeedsArgument(name)), parsed, false;
        }
        value, usesNext := next, true;
      }
      parsed := parsed[name := Text(value.value)];
    }
    err := None;
  }

  method ParseShort(body: string, next: Option<string>, table: Table, before: map<string, Value>)
    returns (err: Option<Error>, parsed: map<string, Value>, usesNext: bool)
    requires body != ""
    ensures match ShortFlags(body, next, table)
            case Failure(e) => err == Some(e)
            case Success(t) => err == None && t.args == [] && parsed == before + t.flags
                               && t.used == (if usesNext then 2 else 1)
  {
    if |body| >= 2 && body[1] == '=' {
      var flag := LookupShort(table, body[0]);
      if flag.None? {
        return Some(UnknownShort(body[0])), before, false;
      }
      if flag.value.isBool {
        return Some(NoValueAllowed(body[0])), before, false;
      }
      return None, before[flag.value.name := Text(body[2..])], false;
    }
    ClusterUses(body, next, table);
    err, parsed, usesNext := ParseCluster(body, next, table, before);
  }

  method ParseArgv(argv: seq<string>, table: Table) returns (r: Outcome)
    ensures r == Parse(argv, table)
  {
    var positional: seq<string> := [];
    var parsed: map<string, Value> := map[];
    var i := 0;
    SoFarStart(argv, table);
    while i < |argv|
      invariant 0 <= i <= |argv| && SoFar(argv, table, positional, parsed, i)
    {
      AfterToken(argv, table, positional, parsed, i);
      var tok := argv[i];
      var next := if i + 1 < |argv| then Some(argv[i + 1]) else None;
      assert argv[i..][0] == tok && Next(argv[i..]) == next;
      var err: Option<Error>;
      var usesNext := false;
      if IsLong(tok) {
        if |tok| == 2 {
          assert argv[i..][1..] == argv[i + 1..];
          positional := positional + argv[i + 1..];
          assert parsed + map[] == parsed;
          i := |argv|;
          break;
        }
        err, parsed, usesNext := ParseLong(tok[2..], next, table, parsed);
        if err.Some? {
          return Failure(err.value);
        }
        assert positional + [] == positional;
      } else if IsShort(tok) {
        err, parsed, usesNext := ParseShort(tok[1..], next, table, parsed);
        if err.Some? {
          return Failure(err.value);
        }
        assert positional + [] == positional;
      } else {
        assert parsed + map[] == parsed;
        positional := positional + [tok];
      }
      i := i + if usesNext then 2 else 1;
    }
    AtEnd(argv, table, positional, parsed);
    return Success(Parsed(positional, parsed));
  }

  lemma SoFarStart(argv: seq<string>, table: Table)
    ensures SoFar(argv, table, [], map[], 0)
  {
    assert argv[0..] == argv;
    var p := Parse(argv, table);
    if p.Success? {
      assert [] + p.value.args == p.value.args && map[] + p.value.flags == p.value.flags;
    }
  }
}
