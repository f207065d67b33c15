/**
 Subtitle timing (scripts/omni.py): captions share the narration by length, and their
 printed times tile it. Durations are reals; rounding is half to even, as Python rounds.
 */
module Subtitles {
  import opened Wrappers
  import opened Escaping
  import opened Sequences
  import opened Words

  // ----- Rounding -----

  function Round(x: real): int {
    var below := x.Floor;
    var part := x - below as real;
    if part < 0.5 || (part == 0.5 && below % 2 == 0) then below else below + 1
  }

  lemma RoundIsNear(x: real)
    ensures -0.5 <= Round(x) as real - x <= 0.5
  {
  }

  lemma RoundIsMonotone(x: real, y: real)
    requires x <= y
    ensures Round(x) <= Round(y)
  {
  }

  // ----- Printed times -----

  function Digit(d: nat): char
    requires d < 10
  {
    ('0' as int + d) as char
  }

  function Decimal(n: nat): string {
    if n < 10 then [Digit(n)] else Decimal(n / 10) + [Digit(n % 10)]
  }

  function TwoDigits(n: nat): string
    requires n < 100
  {
    [Digit(n / 10), Digit(n % 10)]
  }

  function Number(s: string): int {
    if s == "" then 0 else 10 * Number(s[..|s| - 1]) + (s[|s| - 1] as int - '0' as int)
  }

  lemma {:induction false} NumberInvertsDecimal(n: nat)
    ensures Number(Decimal(n)) == n && Decimal(n) != ""
  {
    if n >= 10 {
      NumberInvertsDecimal(n / 10);
      assert Decimal(n)[..|Decimal(n)| - 1] == Decimal(n / 10);
    } else {
      assert Decimal(n)[..0] == "";
    }
  }

  lemma NumberInvertsTwoDigits(n: nat)
    requires n < 100
    ensures Number(TwoDigits(n)) == n
  {
    assert TwoDigits(n)[..1] == [Digit(n / 10)] && [Digit(n / 10)][..0] == "";
    assert Number([Digit(n / 10)]) == n / 10;
  }

  function Clock(cs: nat): string {
    Decimal(cs / 360000) + ":" + TwoDigits(cs % 360000 / 6000) + ":"
    + TwoDigits(cs % 6000 / 100) + "." + TwoDigits(cs % 100)
  }

  function Centiseconds(seconds: real): nat {
    if Round(seconds * 100.0) < 0 then 0 else Round(seconds * 100.0)
  }

  /** Hours, minutes and seconds, and centiseconds taken from the right. */
  function AssTime(seconds: real): string {
    Clock(Centiseconds(seconds))
  }

  datatype Time = Time(hours: int, minutes: int, seconds: int, centis: int)

  function ReadClock(s: string): Option<Time> {
    var n := |s|;
    if n >= 10 && s[n - 9] == ':' && s[n - 6] == ':' && s[n - 3] == '.'
    then Some(Time(Number(s[..n - 9]), Number(s[n - 8..n - 6]), Number(s[n - 5..n - 3]), Number(s[n - 2..])))
    else None
  }

  /** A printed time has minutes and seconds below 60 and reads back as its exact count. */
  lemma ClockReadsBack(cs: nat)
    ensures var t := ReadClock(Clock(cs));
      && t.Some?
      && 0 <= t.value.minutes < 60 && 0 <= t.value.seconds < 60 && 0 <= t.value.centis < 100 && t.value.hours >= 0
      && 360000 * t.value.hours + 6000 * t.value.minutes + 100 * t.value.seconds + t.value.centis == cs
  {
    var h, m, s, c := cs / 360000, cs % 360000 / 6000, cs % 6000 / 100, cs % 100;
    var text, n := Clock(cs), |Clock(cs)|;
    NumberInvertsDecimal(h);
    NumberInvertsTwoDigits(m);
    NumberInvertsTwoDigits(s);
    NumberInvertsTwoDigits(c);
    assert text[..n - 9] == Decimal(h);
    assert text[n - 8..n - 6] == TwoDigits(m);
    assert text[n - 5..n - 3] == TwoDigits(s);
    assert text[n - 2..] == TwoDigits(c);
    ClockParts(cs);
  }

  lemma ClockParts(cs: nat)
    ensures 360000 * (cs / 360000) + 6000 * (cs % 360000 / 6000) + 100 * (cs % 6000 / 100) + cs % 100 == cs
  {
    var h, r := cs / 360000, cs % 360000;
    var m, q := r / 6000, r % 6000;
    SixThousands(cs, 60 * h + m, q);
    Hundreds(cs, 60 * (60 * h + m) + q / 100, q % 100);
  }

  lemma SixThousands(n: nat, k: nat, rest: nat)
    requires n == 6000 * k + rest && rest < 6000
    ensures n % 6000 == rest
  {
  }

  lemma Hundreds(n: nat, k: nat, rest: nat)
    requires n == 100 * k + rest && rest < 100
    ensures n % 100 == rest
  {
  }

  // ----- Sharing the duration -----

  function Weight(chunk: string): nat {
    if |chunk| > 1 then |chunk| else 1
  }

  function Weights(chunks: seq<string>): (w: nat)
    ensures w >= |chunks|
  {
    if chunks == [] then 0 else Weights(chunks[..|chunks| - 1]) + Weight(chunks[|chunks| - 1])
  }

  function Portion(duration: real, part: nat, total: nat): real
    requires total > 0
  {
    duration * part as real / total as real
  }

  /** The time at which chunk k begins, in seconds. */
  function StartOf(chunks: seq<string>, duration: real, k: nat): real
    requires k <= |chunks| && chunks != []
  {
    Portion(duration, Weights(chunks[..k]), Weights(chunks))
  }

  datatype Cue = Cue(start: string, end: string, text: string)

  datatype OmniError = NoText

  function CueText(chunk: string): string {
    "{\\fad(120,120)}" + EscapeAss(chunk)
  }

  function CueOf(chunks: seq<string>, duration: real, k: nat): Cue
    requires k < |chunks|
  {
    Cue(AssTime(StartOf(chunks, duration, k)), AssTime(StartOf(chunks, duration, k + 1)), CueText(chunks[k]))
  }

  lemma CueParts(chunks: seq<string>, duration: real, k: nat)
    requires k < |chunks|
    ensures var w, w', total := Weights(chunks[..k]), Weights(chunks[..k + 1]), Weights(chunks);
      && w' == w + Weight(chunks[k])
      && CueOf(chunks, duration, k)
         == Cue(AssTime(Portion(duration, w, total)), AssTime(Portion(duration, w', total)), CueText(chunks[k]))
  {
    assert chunks[..k + 1][..k] == chunks[..k];
  }

  function DialogueLine(cue: Cue): string {
    "Dialogue: 0," + cue.start + "," + cue.end + ",Dxrk,,0,0,0,," + cue.text
  }

  /** One line for each caption. */
  function DialogueLines(chunks: seq<string>, duration: real): (r: seq<string>)
    ensures |r| == |chunks|
  {
    seq(|chunks|, k requires 0 <= k < |chunks| => DialogueLine(CueOf(chunks, duration, k)))
  }

  lemma NextLine(chunks: seq<string>, duration: real, i: nat)
    requires i < |chunks|
    ensures DialogueLines(chunks, duration)[..i + 1]
         == DialogueLines(chunks, duration)[..i] + [DialogueLine(CueOf(chunks, duration, i))]
  {
  }

  /** The fixed header is a parameter. */
  method BuildAss(header: string, chunks: seq<string>, duration: real) returns (r: Result<string, OmniError>)
    ensures r.Failure? <==> chunks == []
    ensures r.Success? ==> r.value == header + Join('\n', DialogueLines(chunks, duration)) + "\n"
  {
    if chunks == [] {
      return Failure(NoText);
    }
    var total := Weights(chunks);
    var lines: seq<string> := [];
    var elapsed := 0;
    for i := 0 to |chunks|
      invariant elapsed == Weights(chunks[..i])
      invariant lines == DialogueLines(chunks, duration)[..i]
    {
      CueParts(chunks, duration, i);
      NextLine(chunks, duration, i);
      var start := Portion(duration, elapsed, total);
      elapsed := elapsed + Weight(chunks[i]);
      var end := Portion(duration, elapsed, total);
      lines := lines + [DialogueLine(Cue(AssTime(start), AssTime(end), CueText(chunks[i])))];
    }
    assert lines == DialogueLines(chunks, duration);
    return Success(header + Join('\n', lines) + "\n");
  }

  // ----- One line for each caption -----

  predicate InLine(c: char) {
    c != '\n'
  }

  lemma InLineAppend(s: string, t: string)
    requires AllLetters(InLine, s) && AllLetters(InLine, t)
    ensures AllLetters(InLine, s + t)
  {
  }

  lemma {:induction false} ReplacedIsGone(s: string, to: string)
    requires AllLetters(InLine, to)
    ensures AllLetters(InLine, ReplaceAll(s, '\n', to))
  {
    if s != "" {
      ReplacedIsGone(s[1..], to);
      InLineAppend(if s[0] == '\n' then to else [s[0]], ReplaceAll(s[1..], '\n', to));
    }
  }

  lemma {:induction false} DecimalInLine(n: nat)
    ensures AllLetters(InLine, Decimal(n))
  {
    if n >= 10 {
      DecimalInLine(n / 10);
      InLineAppend(Decimal(n / 10), [Digit(n % 10)]);
    }
  }

  lemma ClockInLine(cs: nat)
    ensures AllLetters(InLine, Clock(cs))
  {
    DecimalInLine(cs / 360000);
  }

  lemma CueInLine(chunks: seq<string>, duration: real, k: nat)
    requires k < |chunks|
    ensures IsWord(InLine, DialogueLine(CueOf(chunks, duration, k)))
  {
    var cue := CueOf(chunks, duration, k);
    var chunk := chunks[k];
    ReplacedIsGone(ReplaceAll(ReplaceAll(ReplaceAll(chunk, '\\', "\\\\"), '{', "\\{"), '}', "\\}"), "\\N");
    InLineAppend("{\\fad(120,120)}", EscapeAss(chunk));
    ClockInLine(Centiseconds(StartOf(chunks, duration, k)));
    ClockInLine(Centiseconds(StartOf(chunks, duration, k + 1)));
    InLineAppend("Dialogue: 0,", cue.start);
    InLineAppend("Dialogue: 0," + cue.start, ",");
    InLineAppend("Dialogue: 0," + cue.start + ",", cue.end);
    InLineAppend("Dialogue: 0," + cue.start + "," + cue.end, ",Dxrk,,0,0,0,,");
    InLineAppend("Dialogue: 0," + cue.start + "," + cue.end + ",Dxrk,,0,0,0,,", cue.text);
  }

  /** Whatever the captions hold, line breaks too: the lines of the events are one line for each caption. */
  lemma LinesReadBack(chunks: seq<string>, duration: real)
    ensures WordsOf(InLine, Join('\n', DialogueLines(chunks, duration))) == DialogueLines(chunks, duration)
  {
    var lines := DialogueLines(chunks, duration);
    forall k | 0 <= k < |lines|
      ensures IsWord(InLine, lines[k])
    {
      CueInLine(chunks, duration, k);
    }
    WordsInvertJoin(InLine, '\n', lines);
  }

  lemma PortionAdds(duration: real, a: nat, w: nat, total: nat)
    requires total > 0
    ensures Portion(duration, a + w, total) == Portion(duration, a, total) + Portion(duration, w, total)
  {
    var d, t := duration, total as real;
    assert (a + w) as real == a as real + w as real;
    assert d * (a as real + w as real) == d * a as real + d * w as real;
    SplitQuotient(d * a as real, d * w as real, t);
  }

  lemma SplitQuotient(x: real, y: real, t: real)
    requires t > 0.0
    ensures (x + y) / t == x / t + y / t
  {
  }

  lemma PortionIsNonNegative(duration: real, w: nat, total: nat)
    requires duration >= 0.0 && total > 0
    ensures Portion(duration, w, total) >= 0.0
  {
    assert duration * w as real >= 0.0;
  }

  lemma PortionEnds(duration: real, total: nat)
    requires total > 0
    ensures Portion(duration, 0, total) == 0.0 && Portion(duration, total, total) == duration
  {
  }

  lemma RoundedLength(from: real, share: real)
    requires from >= 0.0 && share >= 0.0
    ensures var length := Centiseconds(from + share) - Centiseconds(from);
      0 <= length && -1.0 <= length as real - share * 100.0 <= 1.0
  {
    var a, b := from * 100.0, (from + share) * 100.0;
    assert b == a + share * 100.0;
    RoundIsMonotone(0.0, a);
    RoundIsMonotone(a, b);
    RoundIsNear(a);
    RoundIsNear(b);
  }

  /** The printed length of a cue is within one centisecond of its share of the duration. */
  ghost predicate InProportion(chunks: seq<string>, duration: real, k: nat)
    requires k < |chunks|
  {
    var length := Centiseconds(StartOf(chunks, duration, k + 1)) - Centiseconds(StartOf(chunks, duration, k));
    var share := Portion(duration, Weight(chunks[k]), Weights(chunks));
    0 <= length && -1.0 <= length as real - share * 100.0 <= 1.0
  }

  lemma OneCue(chunks: seq<string>, duration: real, k: nat)
    requires k < |chunks| && duration >= 0.0
    ensures InProportion(chunks, duration, k)
  {
    assert chunks[..k + 1][..k] == chunks[..k];
    var a, w, total := Weights(chunks[..k]), Weight(chunks[k]), Weights(chunks);
    PortionAdds(duration, a, w, total);
    PortionIsNonNegative(duration, a, total);
    PortionIsNonNegative(duration, w, total);
    RoundedLength(Portion(duration, a, total), Portion(duration, w, total));
  }

  /**
   The printed cues tile the narration: they start at 0, end at its rounded length,
   leave no gap, and each is within one centisecond of its share.
   */
  lemma CuesTile(chunks: seq<string>, duration: real)
    requires chunks != [] && duration >= 0.0
    ensures CueOf(chunks, duration, 0).start == Clock(0)
    ensures Round(duration * 100.0) >= 0
    ensures CueOf(chunks, duration, |chunks| - 1).end == Clock(Round(duration * 100.0))
    ensures forall k :: 0 <= k < |chunks| - 1 ==> CueOf(chunks, duration, k).end == CueOf(chunks, duration, k + 1).start
    ensures forall k :: 0 <= k < |chunks| ==> InProportion(chunks, duration, k)
  {
    assert chunks[..|chunks|] == chunks && chunks[..0] == [];
    PortionEnds(duration, Weights(chunks));
    RoundIsMonotone(0.0, duration * 100.0);
    forall k | 0 <= k < |chunks|
      ensures InProportion(chunks, duration, k)
    {
      OneCue(chunks, duration, k);
    }
  }

  // ----- Cutting the text into captions -----

  predicate EndsClause(word: string) {
    word != "" && word[|word| - 1] in ".!?,;:"
  }

  predicate Full(chunk: seq<string>, maxWords: int) {
    |chunk| >= maxWords || (chunk != [] && EndsClause(chunk[|chunk| - 1]))
  }

  /** A chunk is closed by its last word and by no earlier one. */
  ghost predicate CutInTime(chunk: seq<string>, maxWords: int) {
    chunk != [] && forall k :: 0 < k < |chunk| ==> !Full(chunk[..k], maxWords)
  }

  predicate IsInk(c: char) {
    !IsSpace(c)
  }

  function WordLists(captions: seq<string>): (r: seq<seq<string>>)
    ensures |r| == |captions|
  {
    seq(|captions|, i requires 0 <= i < |captions| => WordsOf(IsInk, captions[i]))
  }

  /**
   The captions hold the words of the text, none lost, each joined by single blanks; each
   is cut as soon as it is full, and only the last may stay open.
   */
  method CaptionChunks(text: string, maxWords: int) returns (captions: seq<string>)
    ensures Flatten(WordLists(captions)) == WordsOf(IsInk, text)
    ensures forall i :: 0 <= i < |captions| ==> captions[i] == Join(' ', WordsOf(IsInk, captions[i]))
    ensures forall i :: 0 <= i < |captions| ==> CutInTime(WordsOf(IsInk, captions[i]), maxWords)
    ensures forall i :: 0 <= i < |captions| - 1 ==> Full(WordsOf(IsInk, captions[i]), maxWords)
  {
    var words := WordsOf(IsInk, text);
    WordsAreWords(IsInk, text);
    captions := [];
    ghost var chunks: seq<seq<string>> := [];
    var current: seq<string> := [];
    for i := 0 to |words|
      invariant IsRead(chunks, current, words, i)
      invariant Chunked(chunks, captions, maxWords) && AllFull(chunks, maxWords)
      invariant StillOpen(current, maxWords)
    {
      NextWord(chunks, current, words, i, maxWords);
      current := current + [words[i]];
      if |current| >= maxWords || EndsClause(words[i]) {
        OneMoreChunk(chunks, captions, current, words, i + 1, maxWords);
        captions := captions + [Join(' ', current)];
        chunks := chunks + [current];
        current := [];
      }
    }
    if current != [] {
      OpenIsCut(current, maxWords);
      OneMoreChunk(chunks, captions, current, words, |words|, maxWords);
      captions := captions + [Join(' ', current)];
      chunks := chunks + [current];
    }
    ReadBack(chunks, captions, words, maxWords);
  }

  /** The chunks and the open one are the first i words. */
  ghost predicate IsRead(chunks: seq<seq<string>>, current: seq<string>, words: seq<string>, i: nat) {
    i <= |words| && Flatten(chunks) + current == words[..i] && AreWords(IsInk, words)
  }

  ghost predicate AllFull(chunks: seq<seq<string>>, maxWords: int) {
    forall i :: 0 <= i < |chunks| ==> Full(chunks[i], maxWords)
  }

  ghost predicate Chunked(chunks: seq<seq<string>>, captions: seq<string>, maxWords: int) {
    AllCut(chunks, maxWords) && Joined(chunks, captions)
  }

  lemma ReadBack(chunks: seq<seq<string>>, captions: seq<string>, words: seq<string>, maxWords: int)
    requires Chunked(chunks, captions, maxWords)
    requires IsRead(chunks, [], words, |words|)
    ensures Flatten(WordLists(captions)) == words
    ensures forall i :: 0 <= i < |captions| ==> captions[i] == Join(' ', WordsOf(IsInk, captions[i]))
    ensures forall i :: 0 <= i < |captions| ==> WordsOf(IsInk, captions[i]) == chunks[i]
    ensures forall i :: 0 <= i < |captions| ==> CutInTime(WordsOf(IsInk, captions[i]), maxWords)
  {
    forall i | 0 <= i < |captions|
      ensures IsCaption(chunks[i], captions[i]) && CutInTime(chunks[i], maxWords)
    {
    }
    assert WordLists(captions) == chunks && words[..|words|] == words;
    assert Flatten(chunks) + [] == Flatten(chunks);
  }

  ghost predicate IsCaption(chunk: seq<string>, caption: string) {
    caption == Join(' ', chunk) && WordsOf(IsInk, caption) == chunk
  }

  ghost predicate Joined(chunks: seq<seq<string>>, captions: seq<string>) {
    |captions| == |chunks| && forall j :: 0 <= j < |chunks| ==> IsCaption(chunks[j], captions[j])
  }

  /** No word of the chunk, not even its last, has closed it. */
  ghost predicate StillOpen(chunk: seq<string>, maxWords: int) {
    forall k :: 0 < k <= |chunk| ==> !Full(chunk[..k], maxWords)
  }

  ghost predicate AllCut(chunks: seq<seq<string>>, maxWords: int) {
    forall i :: 0 <= i < |chunks| ==> CutInTime(chunks[i], maxWords)
  }

  lemma OneMore(chunk: seq<string>, word: string, maxWords: int)
    requires StillOpen(chunk, maxWords)
    ensures CutInTime(chunk + [word], maxWords)
    ensures !Full(chunk + [word], maxWords) ==> StillOpen(chunk + [word], maxWords)
  {
    var longer := chunk + [word];
    assert longer[..|longer|] == longer;
    forall k | 0 < k <= |chunk|
      ensures !Full(longer[..k], maxWords)
    {
      assert longer[..k] == chunk[..k];
    }
  }

  lemma NextWord(chunks: seq<seq<string>>, current: seq<string>, words: seq<string>, i: nat, maxWords: int)
    requires IsRead(chunks, current, words, i) && i < |words| && StillOpen(current, maxWords)
    ensures var longer := current + [words[i]];
      && IsRead(chunks, longer, words, i + 1) && CutInTime(longer, maxWords)
      && (!Full(longer, maxWords) ==> StillOpen(longer, maxWords))
      && (Full(longer, maxWords) <==> |longer| >= maxWords || EndsClause(words[i]))
  {
    assert words[..i + 1] == words[..i] + [words[i]];
    assert Flatten(chunks) + (current + [words[i]]) == (Flatten(chunks) + current) + [words[i]];
    OneMore(current, words[i], maxWords);
  }

  lemma OpenIsCut(chunk: seq<string>, maxWords: int)
    requires chunk != [] && StillOpen(chunk, maxWords)
    ensures CutInTime(chunk, maxWords)
  {
  }

  lemma OneMoreChunk(chunks: seq<seq<string>>, captions: seq<string>, chunk: seq<string>,
                     words: seq<string>, i: nat, maxWords: int)
    requires Chunked(chunks, captions, maxWords) && CutInTime(chunk, maxWords) && IsRead(chunks, chunk, words, i)
    ensures Chunked(chunks + [chunk], captions + [Join(' ', chunk)], maxWords)
    ensures IsRead(chunks + [chunk], [], words, i)
    ensures AllFull(chunks, maxWords) && Full(chunk, maxWords) ==> AllFull(chunks + [chunk], maxWords)
  {
    FlattenSnoc(chunks, chunk);
    assert (Flatten(chunks) + chunk) + [] == Flatten(chunks) + chunk;
    ReadWords(chunks, chunk, words, i);
    WordsInvertJoin(IsInk, ' ', chunk);
    assert IsCaption(chunk, Join(' ', chunk));
  }

  lemma ReadWords(chunks: seq<seq<string>>, chunk: seq<string>, words: seq<string>, i: nat)
    requires IsRead(chunks, chunk, words, i)
    ensures AreWords(IsInk, chunk)
  {
    var n := |Flatten(chunks)|;
    forall j | 0 <= j < |chunk|
      ensures IsWord(IsInk, chunk[j])
    {
      assert (Flatten(chunks) + chunk)[n + j] == chunk[j];
      assert words[..i][n + j] == words[n + j];
    }
  }

  /** So no caption has more than max_words words. */
  lemma ChunksAreShort(chunk: seq<string>, maxWords: int)
    requires CutInTime(chunk, maxWords)
    ensures |chunk| <= if maxWords > 1 then maxWords else 1
  {
    var k := if maxWords > 1 then maxWords else 1;
    assert k < |chunk| ==> !Full(chunk[..k], maxWords);
  }

  // ----- Written examples and exact shares -----

  /** A number halfway between two others is rounded to the even one. */
  lemma TiesToEven(n: int)
    ensures Round(n as real + 0.5) % 2 == 0 && n <= Round(n as real + 0.5) <= n + 1
  {
  }

  lemma ClockExamples()
    ensures Clock(0) == "0:00:00.00" && Clock(372304) == "1:02:03.04"
  {
    assert Decimal(0) == "0" && Decimal(1) == "1";
  }

  lemma {:induction false} TextLength(chunks: seq<string>)
    requires forall i :: 0 <= i < |chunks| ==> chunks[i] != ""
    ensures Weights(chunks) == |Flatten(chunks)|
  {
    if chunks != [] {
      var init, last := chunks[..|chunks| - 1], chunks[|chunks| - 1];
      TextLength(init);
      assert chunks == init + [last];
      FlattenSnoc(init, last);
    }
  }

  /** Captions that are not empty share the duration by their lengths; an empty one counts as one character. */
  lemma SharesAreLengths(chunks: seq<string>, duration: real, k: nat)
    requires k <= |chunks| && chunks != [] && forall i :: 0 <= i < |chunks| ==> chunks[i] != ""
    ensures |Flatten(chunks)| > 0
    ensures StartOf(chunks, duration, k) == duration * |Flatten(chunks[..k])| as real / |Flatten(chunks)| as real
    ensures Weight("") == 1
  {
    TextLength(chunks);
    TextLength(chunks[..k]);
  }

  lemma DialogueExample()
    ensures DialogueLine(Cue("a", "b", "c")) == "Dialogue: 0,a,b,Dxrk,,0,0,0,,c"
  {
  }

  /** Every caption fades in and out. */
  lemma FadeExample()
    ensures CueText("") == "{\\fad(120,120)}"
  {
    assert EscapeAss("") == "";
  }

  /** A word closes its caption when it ends in one of six marks. */
  lemma ClosingMarks(word: string, c: char)
    ensures EndsClause(word + [c]) <==> c == '.' || c == '!' || c == '?' || c == ',' || c == ';' || c == ':'
    ensures !EndsClause("")
  {
  }
}
