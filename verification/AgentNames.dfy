/**
 Deriving an agent's name from its title (dxrk/agentbuilder.py, _title_to_name).

 A title is read as a list of words, runs of letters and digits; the name joins them.
 */
module AgentNames {
  import opened Markers
  import opened Words

  predicate IsAlnum(c: char) {
    'a' <= c <= 'z' || '0' <= c <= '9'
  }

  /** The characters that a name keeps. */
  lemma KeptCharacters(c: char)
    ensures IsAlnum(c) <==> c in "abcdefghijklmnopqrstuvwxyz0123456789"
  {
  }

  function Hyphenate(words: seq<string>): string {
    Join('-', words)
  }

  function TitleWords(s: string): seq<string> {
    WordsOf(IsAlnum, s)
  }

  lemma {:induction false} HyphenateShape(words: seq<string>)
    requires AreWords(IsAlnum, words)
    ensures Hyphenate(words) == "" <==> words == []
    ensures words != [] ==> InWord(IsAlnum, Hyphenate(words))
    ensures NameChars(Hyphenate(words))
  {
    if words != [] {
      var init, last := words[..|words| - 1], words[|words| - 1];
      HyphenateShape(init);
      assert IsWord(IsAlnum, last);
      var h := Hyphenate(words);
      assert h[|h| - 1] == last[|last| - 1];
    }
  }

  function StripHyphens(s: string): string {
    if s != "" && s[|s| - 1] == '-' then StripHyphens(s[..|s| - 1]) else s
  }

  /** What has been written for the part of the title read so far. */
  ghost predicate Derived(read: string, out: string, prevHyphen: bool) {
    && out == Hyphenate(TitleWords(read)) + (if prevHyphen then "-" else "")
    && (prevHyphen <==> TitleWords(read) != [] && !InWord(IsAlnum, read))
  }

  lemma LetterStep(read: string, out: string, prevHyphen: bool, r: char)
    requires Derived(read, out, prevHyphen) && IsAlnum(r)
    ensures Derived(read + [r], out + [r], false)
  {
    WordsSnoc(IsAlnum, read, r);
    WordsAreWords(IsAlnum, read);
    if InWord(IsAlnum, read) {
      JoinLonger('-', TitleWords(read), r);
    } else {
      JoinSnoc('-', TitleWords(read), [r]);
    }
  }

  lemma OtherStep(read: string, out: string, prevHyphen: bool, r: char)
    requires Derived(read, out, prevHyphen) && !IsAlnum(r)
    ensures Derived(read + [r], if !prevHyphen && out != "" then out + "-" else out, prevHyphen || out != "")
  {
    WordsSnoc(IsAlnum, read, r);
    WordsAreWords(IsAlnum, read);
    HyphenateShape(TitleWords(read));
  }

  lemma Finish(title: string, out: string, prevHyphen: bool)
    requires Derived(title, out, prevHyphen)
    ensures var name := StripHyphens(out); name == Hyphenate(TitleWords(title)) && (name == "" || ValidName(name))
  {
    WordsAreWords(IsAlnum, title);
    HyphenateShape(TitleWords(title));
    var whole := Hyphenate(TitleWords(title));
    assert (whole + "-")[..|whole|] == whole;
  }

  /**
   The words of the lowered title, joined by single hyphens. Lowering is a parameter, because
   it may change the number of characters and turn signs outside ASCII into ASCII letters.
   */
  method TitleToName(lower: string -> string, title: string) returns (name: string)
    ensures name == Hyphenate(TitleWords(lower(title)))
    ensures name == "" || ValidName(name)
  {
    var s := lower(title);
    var out := "";
    var prevHyphen := false;
    for i := 0 to |s|
      invariant Derived(s[..i], out, prevHyphen)
    {
      var r := s[i];
      assert s[..i + 1] == s[..i] + [r];
      if IsAlnum(r) {
        LetterStep(s[..i], out, prevHyphen, r);
        out := out + [r];
        prevHyphen := false;
      } else {
        OtherStep(s[..i], out, prevHyphen, r);
        if !prevHyphen && out != "" {
          out := out + "-";
          prevHyphen := true;
        }
      }
    }
    assert s[..|s|] == s;
    Finish(s, out, prevHyphen);
    name := StripHyphens(out);
  }

  /** Splitting a name gives back the words it was made of. */
  lemma NameKeepsWords(words: seq<string>)
    requires AreWords(IsAlnum, words)
    ensures TitleWords(Hyphenate(words)) == words
  {
    WordsInvertJoin(IsAlnum, '-', words);
  }

  /** A name is its own name: deriving it again changes nothing, when lowering keeps what is lower already. */
  lemma NameIsStable(lower: string -> string, title: string)
    requires forall s :: NameChars(s) ==> lower(s) == s
    ensures var name := Hyphenate(TitleWords(lower(title))); Hyphenate(TitleWords(lower(name))) == name
  {
    var words := TitleWords(lower(title));
    WordsAreWords(IsAlnum, lower(title));
    HyphenateShape(words);
    NameKeepsWords(words);
  }
}
