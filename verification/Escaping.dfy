/**
 Two escapes with left inverses: quote_str (dxrk/commands/registry.py) and
 escape_ass (scripts/omni.py).

 A left inverse gives every text back, so no two texts are written alike.
 */
module Escaping {
  import opened Wrappers

  // ----- quote_str -----

  predicate IsControl(c: char) {
    c as int < 0x20 || c as int == 0x7F
  }

  const HEX := "0123456789abcdef"

  function HexValue(c: char): (v: int)
    ensures -1 <= v < 16
    ensures v >= 0 ==> HEX[v] == c
  {
    if '0' <= c <= '9' then c as int - '0' as int
    else if 'a' <= c <= 'f' then c as int - 'a' as int + 10
    else -1
  }

  lemma HexDigits(v: nat)
    requires v < 16
    ensures HexValue(HEX[v]) == v
    ensures !IsControl(HEX[v])
  {
    if v < 10 {
      assert HEX[v] as int == '0' as int + v;
    } else {
      assert HEX[v] as int == 'a' as int + v - 10;
    }
  }

  function QuoteChar(c: char): string {
    if c == '"' then "\\\""
    else if c == '\\' then "\\\\"
    else if c == '\n' then "\\n"
    else if c == '\t' then "\\t"
    else if c == '\r' then "\\r"
    else if IsControl(c) then "\\u00" + [HEX[c as int / 16], HEX[c as int % 16]]
    else [c]
  }

  function QuoteBody(s: string): string {
    if s == "" then "" else QuoteBody(s[..|s| - 1]) + QuoteChar(s[|s| - 1])
  }

  function Quote(s: string): string {
    "\"" + QuoteBody(s) + "\""
  }

  lemma QuoteNext(open: string, s: string, i: nat)
    requires i < |s|
    ensures open + QuoteBody(s[..i]) + QuoteChar(s[i]) == open + QuoteBody(s[..i + 1])
  {
    assert s[..i + 1][..i] == s[..i];
    Regroup(open, QuoteBody(s[..i]), QuoteChar(s[i]));
  }

  lemma Regroup(a: string, b: string, c: string)
    ensures a + b + c == a + (b + c)
  {
  }

  method QuoteStr(s: string) returns (out: string)
    ensures out == Quote(s)
  {
    out := "\"";
    for i := 0 to |s|
      invariant out == "\"" + QuoteBody(s[..i])
    {
      QuoteNext("\"", s, i);
      out := out + QuoteChar(s[i]);
    }
    assert s[..|s|] == s;
    out := out + "\"";
  }

  function Cons(c: char, rest: Option<string>): Option<string> {
    match rest
    case None => None
    case Some(s) => Some([c] + s)
  }

  /** Reads a quoted body; fails on a raw quote, a raw control character or a bad escape. */
  function UnquoteBody(s: string): Option<string> {
    if s == "" then Some("")
    else if s[0] == '\\' then
      if |s| < 2 then None
      else if s[1] == '"' then Cons('"', UnquoteBody(s[2..]))
      else if s[1] == '\\' then Cons('\\', UnquoteBody(s[2..]))
      else if s[1] == 'n' then Cons('\n', UnquoteBody(s[2..]))
      else if s[1] == 't' then Cons('\t', UnquoteBody(s[2..]))
      else if s[1] == 'r' then Cons('\r', UnquoteBody(s[2..]))
      else if s[1] == 'u' && |s| >= 6 && s[2] == '0' && s[3] == '0' && HexValue(s[4]) >= 0 && HexValue(s[5]) >= 0
      then Cons((16 * HexValue(s[4]) + HexValue(s[5])) as char, UnquoteBody(s[6..]))
      else None
    else if s[0] == '"' || IsControl(s[0]) then None
    else Cons(s[0], UnquoteBody(s[1..]))
  }

  function Unquote(s: string): Option<string> {
    if |s| >= 2 && s[0] == '"' && s[|s| - 1] == '"' then UnquoteBody(s[1..|s| - 1]) else None
  }

  lemma UnquoteOne(c: char, rest: string)
    ensures UnquoteBody(QuoteChar(c) + rest) == Cons(c, UnquoteBody(rest))
  {
    var s := QuoteChar(c) + rest;
    assert s[|QuoteChar(c)|..] == rest;
    if |QuoteChar(c)| == 6 {
      UnquoteHex(c, rest);
    }
  }

  lemma UnquoteHex(c: char, rest: string)
    requires |QuoteChar(c)| == 6
    ensures UnquoteBody(QuoteChar(c) + rest) == Cons(c, UnquoteBody(rest))
  {
    var s := QuoteChar(c) + rest;
    assert s[6..] == rest && s[0] == '\\' && s[1] == 'u';
    HexDigits(c as int / 16);
    HexDigits(c as int % 16);
  }

  function Behind(s: string, rest: Option<string>): Option<string> {
    match rest
    case None => None
    case Some(t) => Some(s + t)
  }

  lemma BehindOneMore(s: string, c: char, rest: Option<string>)
    ensures Behind(s, Cons(c, rest)) == Behind(s + [c], rest)
  {
    if rest.Some? {
      Regroup(s, [c], rest.value);
    }
  }

  lemma {:induction false} UnquotePrefix(s: string, rest: string)
    ensures UnquoteBody(QuoteBody(s) + rest) == Behind(s, UnquoteBody(rest))
  {
    if s == "" {
      assert QuoteBody(s) + rest == rest;
      assert UnquoteBody(rest).Some? ==> s + UnquoteBody(rest).value == UnquoteBody(rest).value;
    } else {
      var init, c := s[..|s| - 1], s[|s| - 1];
      Regroup(QuoteBody(init), QuoteChar(c), rest);
      UnquotePrefix(init, QuoteChar(c) + rest);
      UnquoteLast(init, c, rest, UnquoteBody(QuoteChar(c) + rest));
      assert s == init + [c];
    }
  }

  lemma UnquoteLast(init: string, c: char, rest: string, read: Option<string>)
    requires read == UnquoteBody(QuoteChar(c) + rest)
    ensures Behind(init, read) == Behind(init + [c], UnquoteBody(rest))
  {
    UnquoteOne(c, rest);
    BehindOneMore(init, c, UnquoteBody(rest));
  }

  /** The quoted form is read back as the input: nothing inside it is a raw quote or control. */
  lemma UnquoteInvertsQuote(s: string)
    ensures Unquote(Quote(s)) == Some(s)
  {
    UnquotePrefix(s, "");
    assert QuoteBody(s) + "" == QuoteBody(s) && s + "" == s;
    assert Quote(s)[1..|Quote(s)| - 1] == QuoteBody(s);
  }

  lemma {:induction false} QuoteHasNoControls(s: string)
    ensures forall i :: 0 <= i < |QuoteBody(s)| ==> !IsControl(QuoteBody(s)[i])
  {
    if s != "" {
      QuoteHasNoControls(s[..|s| - 1]);
      var c := s[|s| - 1];
      if |QuoteChar(c)| == 6 {
        HexDigits(c as int / 16);
        HexDigits(c as int % 16);
      }
    }
  }

  lemma QuoteIsInjective(s: string, t: string)
    requires Quote(s) == Quote(t)
    ensures s == t
  {
    UnquoteInvertsQuote(s);
    UnquoteInvertsQuote(t);
  }

  // ----- escape_ass -----

  /** str.replace of a single character. */
  function ReplaceAll(s: string, c: char, to: string): string {
    if s == "" then "" else (if s[0] == c then to else [s[0]]) + ReplaceAll(s[1..], c, to)
  }

  function EscapeAss(text: string): string {
    ReplaceAll(ReplaceAll(ReplaceAll(ReplaceAll(text, '\\', "\\\\"), '{', "\\{"), '}', "\\}"), '\n', "\\N")
  }

  function EscapeChar(c: char): string {
    if c == '\\' then "\\\\"
    else if c == '{' then "\\{"
    else if c == '}' then "\\}"
    else if c == '\n' then "\\N"
    else [c]
  }

  function EscapeOnce(s: string): string {
    if s == "" then "" else EscapeChar(s[0]) + EscapeOnce(s[1..])
  }

  lemma {:induction false} ReplaceAllAppend(s: string, t: string, c: char, to: string)
    ensures ReplaceAll(s + t, c, to) == ReplaceAll(s, c, to) + ReplaceAll(t, c, to)
  {
    if s == "" {
      assert s + t == t;
    } else {
      assert (s + t)[1..] == s[1..] + t;
      ReplaceAllAppend(s[1..], t, c, to);
    }
  }

  lemma EscapeAppend(s: string, t: string)
    ensures EscapeAss(s + t) == EscapeAss(s) + EscapeAss(t)
  {
    ReplaceAllAppend(s, t, '\\', "\\\\");
    var s1, t1 := ReplaceAll(s, '\\', "\\\\"), ReplaceAll(t, '\\', "\\\\");
    ReplaceAllAppend(s1, t1, '{', "\\{");
    var s2, t2 := ReplaceAll(s1, '{', "\\{"), ReplaceAll(t1, '{', "\\{");
    ReplaceAllAppend(s2, t2, '}', "\\}");
    ReplaceAllAppend(ReplaceAll(s2, '}', "\\}"), ReplaceAll(t2, '}', "\\}"), '\n', "\\N");
  }

  lemma ReplaceOne(x: char, c: char, to: string)
    ensures ReplaceAll([x], c, to) == if x == c then to else [x]
  {
    assert [x][1..] == "";
  }

  lemma ReplaceTwo(x: char, y: char, c: char, to: string)
    ensures ReplaceAll([x, y], c, to) == (if x == c then to else [x]) + (if y == c then to else [y])
  {
    assert [x, y][1..] == [y];
    ReplaceOne(y, c, to);
  }

  lemma EscapeSingle(c: char)
    ensures EscapeAss([c]) == EscapeChar(c)
  {
    ReplaceOne(c, '\\', "\\\\");
    ReplaceOne(c, '{', "\\{");
    ReplaceOne(c, '}', "\\}");
    ReplaceOne(c, '\n', "\\N");
    ReplaceTwo('\\', '\\', '{', "\\{");
    ReplaceTwo('\\', '\\', '}', "\\}");
    ReplaceTwo('\\', '\\', '\n', "\\N");
    ReplaceTwo('\\', '{', '}', "\\}");
    ReplaceTwo('\\', '{', '\n', "\\N");
    ReplaceTwo('\\', '}', '\n', "\\N");
  }

  /** The four replacements in a row are one pass over the text. */
  lemma {:induction false} EscapeIsOnePass(s: string)
    ensures EscapeAss(s) == EscapeOnce(s)
  {
    if s != "" {
      assert s == [s[0]] + s[1..];
      EscapeAppend([s[0]], s[1..]);
      EscapeSingle(s[0]);
      EscapeIsOnePass(s[1..]);
    }
  }

  function UnescapeAss(s: string): Option<string> {
    if s == "" then Some("")
    else if s[0] != '\\' then
      if s[0] in "{}\n" then None else Cons(s[0], UnescapeAss(s[1..]))
    else if |s| < 2 then None
    else if s[1] in "\\{}" then Cons(s[1], UnescapeAss(s[2..]))
    else if s[1] == 'N' then Cons('\n', UnescapeAss(s[2..]))
    else None
  }

  lemma {:induction false} UnescapeOnce(s: string)
    ensures UnescapeAss(EscapeOnce(s)) == Some(s)
  {
    if s != "" {
      UnescapeOnce(s[1..]);
      UnescapeChar(s[0], EscapeOnce(s[1..]));
      assert s == [s[0]] + s[1..];
    }
  }

  lemma UnescapeChar(c: char, rest: string)
    ensures UnescapeAss(EscapeChar(c) + rest) == Cons(c, UnescapeAss(rest))
  {
    assert (EscapeChar(c) + rest)[|EscapeChar(c)|..] == rest;
  }

  lemma UnescapeInvertsEscape(s: string)
    ensures UnescapeAss(EscapeAss(s)) == Some(s)
  {
    EscapeIsOnePass(s);
    UnescapeOnce(s);
  }

  lemma EscapeIsInjective(s: string, t: string)
    requires EscapeAss(s) == EscapeAss(t)
    ensures s == t
  {
    UnescapeInvertsEscape(s);
    UnescapeInvertsEscape(t);
  }

  /** The written form of every character that quoting changes. */
  lemma QuotedCharacters()
    ensures QuoteChar('"') == "\\\"" && QuoteChar('\\') == "\\\\" && QuoteChar('\n') == "\\n"
    ensures QuoteChar('\t') == "\\t" && QuoteChar('\r') == "\\r"
    ensures QuoteChar('\0') == "\\u0000" && QuoteChar('\U{1F}') == "\\u001f" && QuoteChar('\U{7F}') == "\\u007f"
  {
    assert HEX[0] == '0' && HEX[1] == '1' && HEX[7] == '7' && HEX[15] == 'f';
  }

  /** And of every other one: a backslash and its code in four hexadecimal digits, or itself. */
  lemma QuotedOtherwise(c: char)
    requires c !in "\"\\\n\t\r"
    ensures if c as int < 32 || c as int == 127
            then exists d: char, e: char :: QuoteChar(c) == "\\u00" + [d, e]
                   && d in "0123456789abcdef" && e in "0123456789abcdef"
                   && 16 * HexValue(d) + HexValue(e) == c as int
            else QuoteChar(c) == [c]
  {
    if c as int < 32 || c as int == 127 {
      HexDigits(c as int / 16);
      HexDigits(c as int % 16);
      var d, e := HEX[c as int / 16], HEX[c as int % 16];
      assert QuoteChar(c) == "\\u00" + [d, e];
    }
  }

  /** The written form of the characters that the subtitle escape changes. */
  lemma EscapedCharacters(c: char)
    ensures EscapeAss("\\") == "\\\\" && EscapeAss("{") == "\\{" && EscapeAss("}") == "\\}" && EscapeAss("\n") == "\\N"
    ensures c !in "\\{}\n" ==> EscapeAss([c]) == [c]
  {
    EscapeSingle('\\');
    EscapeSingle('{');
    EscapeSingle('}');
    EscapeSingle('\n');
    EscapeSingle(c);
  }
}
