/** Writing parsed flags back as a command line (dxrk/commands/registry.py). */
module ArgRendering {
  // The laws that connect rendering with the parser, parse_argv.

  import opened Wrappers
  import opened ArgParser

  datatype Item = Item(name: string, value: Value)

  function RenderFlag(item: Item): string {
    match item.value
    case Switch(true) => "--" + item.name
    case Switch(false) => "--" + item.name + "=false"
    case Text(t) => "--" + item.name + "=" + t
  }

  function Render(items: seq<Item>, args: seq<string>): seq<string> {
    if items == [] then ["--"] + args else [RenderFlag(items[0])] + Render(items[1..], args)
  }

  /** A later item overrides an earlier one. */
  function MapOf(items: seq<Item>): map<string, Value> {
    if items == [] then map[] else map[items[0].name := items[0].value] + MapOf(items[1..])
  }

  ghost predicate ValidTable(table: Table) {
    && (forall i, j :: 0 <= i < j < |table| ==> table[i].name != table[j].name)
    && (forall i :: 0 <= i < |table| ==> table[i].name != "" && '=' !in table[i].name)
  }

  /** The flag exists and takes this kind of value. */
  predicate Fits(table: Table, name: string, value: Value) {
    Lookup(table, name).Some? && (Lookup(table, name).value.isBool <==> value.Switch?)
  }

  lemma {:induction false} NoEquals(name: string)
    requires '=' !in name
    ensures SplitAtEquals(name) == (name, None)
  {
    if name != "" {
      NoEquals(name[1..]);
      assert name == [name[0]] + name[1..];
    }
  }

  lemma {:induction false} FirstEquals(name: string, value: string)
    requires '=' !in name
    ensures SplitAtEquals(name + "=" + value) == (name, Some(value))
  {
    var s := name + "=" + value;
    if name == "" {
      assert s[1..] == value;
    } else {
      assert s[1..] == name[1..] + "=" + value;
      FirstEquals(name[1..], value);
      assert name == [name[0]] + name[1..];
    }
  }

  lemma LookupIsValid(table: Table, name: string)
    requires ValidTable(table) && Lookup(table, name).Some?
    ensures name != "" && '=' !in name
  {
    var f := Lookup(table, name).value;
    var i :| 0 <= i < |table| && table[i] == f;
  }

  lemma FalseReads()
    ensures ReadBool("false") == Some(false) && ReadBool("true") == Some(true)
  {
    assert Lower("e") == "e";
    assert "se"[1..] == "e" && Lower("se") == "se";
    assert "lse"[1..] == "se" && Lower("lse") == "lse";
    assert "alse"[1..] == "lse" && Lower("alse") == "alse";
    assert "false"[1..] == "alse" && Lower("false") == "false";
    assert "ue"[1..] == "e" && Lower("ue") == "ue";
    assert "rue"[1..] == "ue" && Lower("rue") == "rue";
    assert "true"[1..] == "rue" && Lower("true") == "true";
    assert "false"[0] != "1"[0] && "false"[0] != "true"[0] && "false"[0] != "yes"[0] && "false"[0] != "on"[0];
  }

  /** A rendered flag is one token that sets just that flag. */
  lemma RenderedToken(item: Item, rest: seq<string>, table: Table)
    requires ValidTable(table) && Fits(table, item.name, item.value)
    ensures Token([RenderFlag(item)] + rest, table) == Sets(item.name, item.value, 1)
  {
    LookupIsValid(table, item.name);
    var tok := RenderFlag(item);
    var argv := [tok] + rest;
    assert IsLong(tok) && |tok| > 2;
    match item.value {
      case Switch(true) =>
        assert tok[2..] == item.name;
        NoEquals(item.name);
      case Switch(false) =>
        assert tok[2..] == item.name + "=" + "false";
        FirstEquals(item.name, "false");
        FalseReads();
      case Text(t) =>
        assert tok[2..] == item.name + "=" + t;
        FirstEquals(item.name, t);
    }
  }

  lemma TokenFirst(argv: seq<string>, table: Table, name: string, value: Value, used: nat)
    requires argv != [] && 0 < used <= |argv| && Token(argv, table) == Sets(name, value, used)
    ensures Parse(argv, table) == Prepend([], map[name := value], Parse(argv[used..], table))
  {
  }

  /** Parsing what was rendered gives back the flags and the arguments. */
  lemma {:induction false} ParseInvertsRender(items: seq<Item>, args: seq<string>, table: Table)
    requires ValidTable(table)
    requires forall i :: 0 <= i < |items| ==> Fits(table, items[i].name, items[i].value)
    ensures Parse(Render(items, args), table) == Success(Parsed(args, MapOf(items)))
  {
    var argv := Render(items, args);
    if items == [] {
      assert argv[1..] == args && argv[|argv|..] == [] && IsLong("--");
      assert args + [] == args;
    } else {
      ParseInvertsRender(items[1..], args, table);
      var rest := Render(items[1..], args);
      RenderedToken(items[0], rest, table);
      TokenFirst(argv, table, items[0].name, items[0].value, 1);
      assert argv[1..] == rest;
      assert [] + args == args;
    }
  }

  // ----- Every successful parse can be rendered -----

  ghost predicate WellTyped(flags: map<string, Value>, table: Table) {
    forall k :: k in flags ==> Fits(table, k, flags[k])
  }

  lemma {:induction false} LookupFinds(table: Table, f: Flag)
    requires (forall i, j :: 0 <= i < j < |table| ==> table[i].name != table[j].name) && f in table
    ensures Lookup(table, f.name) == Some(f)
  {
    if table[0] != f {
      var i :| 0 <= i < |table| && table[i] == f;
      assert table[0].name != table[i].name;
      LookupFinds(table[1..], f);
    }
  }

  lemma {:induction false} ClusterFits(body: string, next: Option<string>, table: Table)
    requires ValidTable(table)
    ensures var r := Cluster(body, next, table); r.Success? ==> WellTyped(r.value.flags, table)
  {
    if body != "" {
      ClusterFits(body[1..], next, table);
      var flag := LookupShort(table, body[0]);
      if flag.Some? {
        LookupFinds(table, flag.value);
      }
    }
  }

  lemma TokenFits(argv: seq<string>, table: Table)
    requires ValidTable(table) && argv != []
    ensures var r := Token(argv, table); r.Success? ==> WellTyped(r.value.flags, table)
  {
    var tok := argv[0];
    if IsShort(tok) && !IsLong(tok) {
      ClusterFits(tok[1..], Next(argv), table);
      var flag := LookupShort(table, tok[1..][0]);
      if flag.Some? {
        LookupFinds(table, flag.value);
      }
    }
  }

  lemma {:induction false} ParseFits(argv: seq<string>, table: Table)
    requires ValidTable(table)
    ensures var r := Parse(argv, table); r.Success? ==> WellTyped(r.value.flags, table)
    decreases |argv|
  {
    if argv != [] {
      TokenFits(argv, table);
      var t := Token(argv, table);
      if t.Success? {
        ParseFits(argv[t.value.used..], table);
      }
    }
  }

  /** items lists the entries of flags, in any order. */
  ghost predicate Lists(items: seq<Item>, flags: map<string, Value>) {
    && (forall i :: 0 <= i < |items| ==> items[i].name in flags && flags[items[i].name] == items[i].value)
    && (forall k :: k in flags ==> exists i :: 0 <= i < |items| && items[i].name == k)
  }

  lemma {:induction false} MapOfEntries(items: seq<Item>, flags: map<string, Value>)
    requires forall i :: 0 <= i < |items| ==> items[i].name in flags && flags[items[i].name] == items[i].value
    ensures forall k :: k in MapOf(items) ==> k in flags && MapOf(items)[k] == flags[k]
    ensures forall i :: 0 <= i < |items| ==> items[i].name in MapOf(items)
  {
    if items != [] {
      var rest := items[1..];
      assert forall i :: 0 <= i < |rest| ==> rest[i] == items[i + 1];
      MapOfEntries(rest, flags);
      forall i | 0 <= i < |items|
        ensures items[i].name in MapOf(items)
      {
        assert i > 0 ==> items[i] == rest[i - 1];
      }
    }
  }

  /** Whatever spelling was used, rendering a successful parse and parsing again changes nothing. */
  lemma RenderedParseIsStable(argv: seq<string>, table: Table, items: seq<Item>)
    requires ValidTable(table) && Parse(argv, table).Success?
    requires Lists(items, Parse(argv, table).value.flags)
    ensures Parse(Render(items, Parse(argv, table).value.args), table) == Parse(argv, table)
  {
    var p := Parse(argv, table).value;
    ParseFits(argv, table);
    MapOfEntries(items, p.flags);
    assert MapOf(items) == p.flags;
    ParseInvertsRender(items, p.args, table);
  }

  // ----- Spellings of one flag -----

  lemma LongSpelling(f: Flag, v: string, rest: seq<string>, table: Table)
    requires ValidTable(table) && f in table && !f.isBool
    ensures Token(["--" + f.name, v] + rest, table) == Sets(f.name, Text(v), 2)
    ensures Token(["--" + f.name + "=" + v] + rest, table) == Sets(f.name, Text(v), 1)
  {
    LookupFinds(table, f);
    LookupIsValid(table, f.name);
    NoEquals(f.name);
    FirstEquals(f.name, v);
    var tok, tok' := "--" + f.name, "--" + f.name + "=" + v;
    assert tok[2..] == f.name && tok'[2..] == f.name + "=" + v;
    assert Next([tok, v] + rest) == Some(v);
  }

  lemma ShortSpelling(f: Flag, c: char, v: string, rest: seq<string>, table: Table)
    requires LookupShort(table, c) == Some(f) && !f.isBool && c != '-' && !IsDigit(c)
    ensures Token([['-', c], v] + rest, table) == Sets(f.name, Text(v), 2)
    ensures Token([['-', c] + "=" + v] + rest, table) == Sets(f.name, Text(v), 1)
    ensures v != "" && v[0] != '=' ==> Token([['-', c] + v] + rest, table) == Sets(f.name, Text(v), 1)
  {
    var tok, tok', tok'' := ['-', c], ['-', c] + "=" + v, ['-', c] + v;
    assert tok[1..] == [c] && tok'[1..] == [c] + "=" + v && tok''[1..] == [c] + v;
    assert Next([tok, v] + rest) == Some(v);
    assert ([c] + "=" + v)[2..] == v && ([c] + v)[1..] == v && [c][1..] == "";
  }

  /** All spellings of a value flag parse to the same result, in front of anything. */
  lemma SpellingsAgree(f: Flag, c: char, v: string, rest: seq<string>, table: Table)
    requires ValidTable(table) && f in table && !f.isBool
    requires LookupShort(table, c) == Some(f) && c != '-' && !IsDigit(c)
    ensures var whole := Prepend([], map[f.name := Text(v)], Parse(rest, table));
      && Parse(["--" + f.name, v] + rest, table) == whole
      && Parse(["--" + f.name + "=" + v] + rest, table) == whole
      && Parse([['-', c], v] + rest, table) == whole
      && Parse([['-', c] + "=" + v] + rest, table) == whole
      && (v != "" && v[0] != '=' ==> Parse([['-', c] + v] + rest, table) == whole)
  {
    LongSpelling(f, v, rest, table);
    ShortSpelling(f, c, v, rest, table);
    AfterOne("--" + f.name + "=" + v, rest, f.name, v, table);
    AfterOne(['-', c] + "=" + v, rest, f.name, v, table);
    if v != "" && v[0] != '=' {
      AfterOne(['-', c] + v, rest, f.name, v, table);
    }
    AfterTwo("--" + f.name, rest, f.name, v, table);
    AfterTwo(['-', c], rest, f.name, v, table);
  }

  lemma AfterOne(tok: string, rest: seq<string>, name: string, v: string, table: Table)
    requires Token([tok] + rest, table) == Sets(name, Text(v), 1)
    ensures Parse([tok] + rest, table) == Prepend([], map[name := Text(v)], Parse(rest, table))
  {
    assert ([tok] + rest)[1..] == rest;
    TokenFirst([tok] + rest, table, name, Text(v), 1);
  }

  lemma AfterTwo(tok: string, rest: seq<string>, name: string, v: string, table: Table)
    requires Token([tok, v] + rest, table) == Sets(name, Text(v), 2)
    ensures Parse([tok, v] + rest, table) == Prepend([], map[name := Text(v)], Parse(rest, table))
  {
    assert ([tok, v] + rest)[2..] == rest;
    TokenFirst([tok, v] + rest, table, name, Text(v), 2);
  }
}
