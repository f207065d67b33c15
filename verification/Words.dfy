/**
 Cutting a text into words and joining words again.

 What a word is made of is a parameter: runs of letters and digits for the names of agents,
 runs of anything but white space for captions. Joining with a separator that is in no word
 can be undone by cutting.
 */
module Words {
  /** What Python's str.split() and str.strip() take for white space. */
  predicate IsSpace(c: char) {
    var n := c as int;
    || 9 <= n <= 13
    || 28 <= n <= 32
    || n in {0x85, 0xA0, 0x1680, 0x2028, 0x2029, 0x202F, 0x205F, 0x3000}
    || 0x2000 <= n <= 0x200A
  }

  /** These are 29 characters. */
  lemma SpacesListed(c: char)
    ensures IsSpace(c) <==>
            || c in "\t\n\U{0B}\U{0C}\r\U{1C}\U{1D}\U{1E}\U{1F} \U{85}\U{A0}\U{1680}"
            || c in "\U{2000}\U{2001}\U{2002}\U{2003}\U{2004}\U{2005}\U{2006}\U{2007}\U{2008}\U{2009}\U{200A}"
            || c in "\U{2028}\U{2029}\U{202F}\U{205F}\U{3000}"
  {
  }

  /** The maximal runs of letters, in order. */
  function WordsOf(letter: char -> bool, s: string): seq<string> {
    if s == "" then []
    else
      var init, c := s[..|s| - 1], s[|s| - 1];
      if !letter(c) then WordsOf(letter, init)
      else if InWord(letter, init) && WordsOf(letter, init) != [] then Longer(WordsOf(letter, init), c)
      else WordsOf(letter, init) + [[c]]
  }

  predicate InWord(letter: char -> bool, s: string) {
    s != "" && letter(s[|s| - 1])
  }

  function Longer(words: seq<string>, c: char): seq<string>
    requires words != []
  {
    words[..|words| - 1] + [words[|words| - 1] + [c]]
  }

  function Join(separator: char, words: seq<string>): string {
    if words == [] then ""
    else if |words| == 1 then words[0]
    else Join(separator, words[..|words| - 1]) + [separator] + words[|words| - 1]
  }

  predicate AllLetters(letter: char -> bool, s: string) {
    forall k :: 0 <= k < |s| ==> letter(s[k])
  }

  predicate IsWord(letter: char -> bool, w: string) {
    w != "" && AllLetters(letter, w)
  }

  ghost predicate AreWords(letter: char -> bool, words: seq<string>) {
    forall i :: 0 <= i < |words| ==> IsWord(letter, words[i])
  }

  // ----- Cutting -----

  lemma LongerAreWords(letter: char -> bool, words: seq<string>, c: char)
    requires AreWords(letter, words) && words != [] && letter(c)
    ensures AreWords(letter, Longer(words, c))
  {
    var last := words[|words| - 1];
    assert IsWord(letter, last);
    assert IsWord(letter, last + [c]);
  }

  lemma OneMoreWord(letter: char -> bool, words: seq<string>, w: string)
    requires AreWords(letter, words) && IsWord(letter, w)
    ensures AreWords(letter, words + [w])
  {
  }

  lemma WordsSnoc(letter: char -> bool, s: string, c: char)
    ensures var words := WordsOf(letter, s);
      WordsOf(letter, s + [c]) ==
        if !letter(c) then words else if InWord(letter, s) && words != [] then Longer(words, c) else words + [[c]]
  {
    assert (s + [c])[..|s|] == s;
  }

  lemma {:induction false} WordsAreWords(letter: char -> bool, s: string)
    ensures AreWords(letter, WordsOf(letter, s))
    ensures InWord(letter, s) ==> WordsOf(letter, s) != []
  {
    if s != "" {
      var init, c := s[..|s| - 1], s[|s| - 1];
      WordsAreWords(letter, init);
      if letter(c) {
        OneMoreWord(letter, WordsOf(letter, init), [c]);
        if WordsOf(letter, init) != [] {
          LongerAreWords(letter, WordsOf(letter, init), c);
        }
      }
    }
  }

  // ----- Joining -----

  lemma JoinLonger(separator: char, words: seq<string>, c: char)
    requires words != []
    ensures Join(separator, Longer(words, c)) == Join(separator, words) + [c]
  {
    var longer, last := Longer(words, c), words[|words| - 1];
    assert longer[..|longer| - 1] == words[..|words| - 1];
    if |words| > 1 {
      var head := Join(separator, words[..|words| - 1]) + [separator];
      assert head + (last + [c]) == head + last + [c];
    }
  }

  lemma JoinSnoc(separator: char, words: seq<string>, w: string)
    ensures Join(separator, words + [w]) == if words == [] then w else Join(separator, words) + [separator] + w
  {
    assert (words + [w])[..|words|] == words;
  }

  // ----- Cutting what was joined -----

  lemma InWordAppend(letter: char -> bool, s: string, w: string)
    requires !InWord(letter, s) && AllLetters(letter, w)
    ensures InWord(letter, s + w) <==> w != ""
  {
    assert w != "" ==> (s + w)[|s + w| - 1] == w[|w| - 1];
    assert w == "" ==> s + w == s;
  }

  lemma LongerLast(words: seq<string>, w: string, c: char)
    ensures Longer(words + [w], c) == words + [w + [c]]
  {
    assert (words + [w])[..|words|] == words;
  }

  /** A letter behind a text t whose last word so far is w, which may be empty. */
  lemma AppendLetter(letter: char -> bool, t: string, words: seq<string>, w: string, c: char)
    requires WordsOf(letter, t) == if w == "" then words else words + [w]
    requires (InWord(letter, t) <==> w != "") && letter(c)
    ensures WordsOf(letter, t + [c]) == words + [w + [c]]
  {
    WordsSnoc(letter, t, c);
    if w == "" {
      assert w + [c] == [c];
    } else {
      LongerLast(words, w, c);
    }
  }

  lemma LettersSnoc(letter: char -> bool, w: string, c: char)
    requires AllLetters(letter, w + [c])
    ensures AllLetters(letter, w) && letter(c)
  {
    assert (w + [c])[|w|] == c;
    forall k | 0 <= k < |w|
      ensures letter(w[k])
    {
      assert (w + [c])[k] == w[k];
    }
  }

  lemma {:induction false} WordsAppend(letter: char -> bool, s: string, w: string)
    requires !InWord(letter, s) && AllLetters(letter, w)
    ensures WordsOf(letter, s + w) == if w == "" then WordsOf(letter, s) else WordsOf(letter, s) + [w]
  {
    if w == "" {
      assert s + w == s;
    } else {
      var init, c := w[..|w| - 1], w[|w| - 1];
      assert w == init + [c];
      LettersSnoc(letter, init, c);
      WordsAppend(letter, s, init);
      InWordAppend(letter, s, init);
      assert s + w == (s + init) + [c];
      AppendLetter(letter, s + init, WordsOf(letter, s), init, c);
    }
  }

  lemma InvertOneMore(letter: char -> bool, separator: char, words: seq<string>, w: string)
    requires !letter(separator) && WordsOf(letter, Join(separator, words)) == words && IsWord(letter, w)
    ensures WordsOf(letter, Join(separator, words + [w])) == words + [w]
  {
    JoinSnoc(separator, words, w);
    if words == [] {
      WordsAppend(letter, "", w);
      assert "" + w == w;
    } else {
      WordsSnoc(letter, Join(separator, words), separator);
      WordsAppend(letter, Join(separator, words) + [separator], w);
    }
  }

  lemma NextPrefix(letter: char -> bool, words: seq<string>, k: nat)
    requires AreWords(letter, words) && k < |words|
    ensures words[..k + 1] == words[..k] + [words[k]] && IsWord(letter, words[k])
  {
  }

  lemma {:induction false} PrefixInvertsJoin(letter: char -> bool, separator: char, words: seq<string>, k: nat)
    requires !letter(separator) && AreWords(letter, words) && k <= |words|
    ensures WordsOf(letter, Join(separator, words[..k])) == words[..k]
  {
    if k > 0 {
      PrefixInvertsJoin(letter, separator, words, k - 1);
      NextPrefix(letter, words, k - 1);
      InvertOneMore(letter, separator, words[..k - 1], words[k - 1]);
    }
  }

  /** Cutting joined words gives the words back, whenever the separator is in no word. */
  lemma WordsInvertJoin(letter: char -> bool, separator: char, words: seq<string>)
    requires !letter(separator) && AreWords(letter, words)
    ensures WordsOf(letter, Join(separator, words)) == words
  {
    PrefixInvertsJoin(letter, separator, words, |words|);
    assert words[..|words|] == words;
  }

  // ----- Laws of cutting and joining -----

  /** Joining again, read from the left: one separator between any two words. */
  lemma {:induction false} JoinCons(separator: char, first: string, rest: seq<string>)
    requires rest != []
    ensures Join(separator, [first] + rest) == first + [separator] + Join(separator, rest)
    ensures Join(separator, [first]) == first
  {
    var all, last := [first] + rest, rest[|rest| - 1];
    assert all[..|all| - 1] == [first] + rest[..|rest| - 1];
    if |rest| > 1 {
      JoinCons(separator, first, rest[..|rest| - 1]);
      var inner := Join(separator, rest[..|rest| - 1]);
      assert (first + [separator] + inner) + [separator] + last == first + [separator] + (inner + [separator] + last);
    }
  }

  /** A text can be cut anywhere outside words. */
  lemma {:induction false} WordsCut(letter: char -> bool, s: string, c: char, t: string)
    requires !letter(c)
    ensures WordsOf(letter, s + [c] + t) == WordsOf(letter, s) + WordsOf(letter, t)
    ensures InWord(letter, s + [c] + t) == InWord(letter, t)
  {
    var u := s + [c] + t;
    if t == "" {
      assert u == s + [c];
      WordsSnoc(letter, s, c);
    } else {
      var init, last := t[..|t| - 1], t[|t| - 1];
      WordsCut(letter, s, c, init);
      assert u == (s + [c] + init) + [last];
      WordsSnoc(letter, s + [c] + init, last);
      WordsAreWords(letter, init);
      CutLonger(WordsOf(letter, s), WordsOf(letter, init), last);
    }
  }

  lemma CutLonger(a: seq<string>, b: seq<string>, c: char)
    ensures b != [] ==> Longer(a + b, c) == a + Longer(b, c)
    ensures a + b + [[c]] == a + (b + [[c]])
  {
    if b != [] {
      assert (a + b)[..|a + b| - 1] == a + b[..|b| - 1];
    }
  }
}
