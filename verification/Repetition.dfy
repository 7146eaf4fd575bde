/**
 * The receiver's test for model output that repeats itself (workers/model_worker/teaching.py,
 * `repetition_collapse`).
 */
module Repetition {
  import opened Sequences

  const SENTENCE_CHARACTERS: nat := 12
  const SENTENCE_LIMIT: nat := 3
  const COMPACT_CHARACTERS: nat := 80
  const WINDOW_CHARACTERS: nat := 16
  const WINDOW_LIMIT: nat := 5

  /** White space as a regular expression has it. */
  predicate IsSpace(c: char) {
    var code := c as nat;
    || 0x09 <= code <= 0x0D || 0x1C <= code <= 0x20 || code == 0x85 || code == 0xA0 || code == 0x1680
    || 0x2000 <= code <= 0x200A || code == 0x2028 || code == 0x2029 || code == 0x202F || code == 0x205F
    || code == 0x3000
  }

  /** What ends a sentence. */
  predicate IsStop(c: char) {
    c in "。！？!?；;\n"
  }

  /** What does not count inside a sentence. */
  predicate IsMark(c: char) {
    IsSpace(c) || c in "，,：:“”\"‘’、（）()[]{}"
  }

  /** The text without white space. */
  function Compact(text: string): string {
    if text == "" then ""
    else
      var n := |text| - 1;
      Compact(text[..n]) + if IsSpace(text[n]) then "" else [text[n]]
  }

  /** The sentences without their marks. Empty ones, between two stops, are too short to matter. */
  function Sentences(text: string): (sentences: seq<string>)
    ensures sentences != []
  {
    if text == "" then [""]
    else
      var n := |text| - 1;
      var before := Sentences(text[..n]);
      var last := |before| - 1;
      if IsStop(text[n]) then before + [""]
      else if IsMark(text[n]) then before
      else before[..last] + [before[last] + [text[n]]]
  }

  /** All stretches of sixteen characters. */
  function Windows(text: string): (windows: seq<string>)
    ensures |windows| == if |text| < WINDOW_CHARACTERS then 0 else |text| - WINDOW_CHARACTERS + 1
  {
    seq(if |text| < WINDOW_CHARACTERS then 0 else |text| - WINDOW_CHARACTERS + 1,
        i requires 0 <= i && i + WINDOW_CHARACTERS <= |text| => text[i..i + WINDOW_CHARACTERS])
  }

  predicate Repeats(parts: seq<string>, limit: nat, least: nat) {
    exists part | part in parts :: |part| >= least && multiset(parts)[part] >= limit
  }

  /** A long sentence comes three times, or a stretch of a long text five times. */
  predicate Collapses(text: string) {
    || Repeats(Sentences(text), SENTENCE_LIMIT, SENTENCE_CHARACTERS)
    || (|Compact(text)| >= COMPACT_CHARACTERS && Repeats(Windows(Compact(text)), WINDOW_LIMIT, 0))
  }

  // What counts as a repetition, without the way it is computed

  /** The white space of Unicode that a regular expression matches. */
  lemma SpacesAre(c: char)
    ensures IsSpace(c)
       <==> c as nat in {9, 10, 11, 12, 13, 28, 29, 30, 31, 32, 133, 160, 5760, 8192, 8193, 8194, 8195, 8196, 8197,
                         8198, 8199, 8200, 8201, 8202, 8232, 8233, 8239, 8287, 12288}
  {
  }

  lemma {:induction false} CompactJoins(a: string, b: string)
    ensures Compact(a + b) == Compact(a) + Compact(b)
  {
    if b == "" {
      assert a + b == a;
    } else {
      var n := |b| - 1;
      assert (a + b)[..|a + b| - 1] == a + b[..n];
      CompactJoins(a, b[..n]);
    }
  }

  lemma CompactOfOne(c: char)
    ensures Compact([c]) == if IsSpace(c) then "" else [c]
  {
    assert [c][..0] == "";
  }

  /** A text without its marks. */
  function Unmarked(text: string): string {
    if text == "" then "" else (if IsMark(text[0]) then "" else [text[0]]) + Unmarked(text[1..])
  }

  lemma {:induction false} UnmarkedSnoc(text: string, c: char)
    ensures Unmarked(text + [c]) == Unmarked(text) + if IsMark(c) then "" else [c]
  {
    if text == "" {
      assert [c][1..] == "";
    } else {
      assert (text + [c])[1..] == text[1..] + [c];
      UnmarkedSnoc(text[1..], c);
    }
  }

  /** Without a stop a text is one sentence. */
  lemma {:induction false} NoStopIsOneSentence(text: string)
    requires forall i | 0 <= i < |text| :: !IsStop(text[i])
    ensures Sentences(text) == [Unmarked(text)]
  {
    hide IsStop, IsMark;
    if text != "" {
      var n := |text| - 1;
      NoStopIsOneSentence(text[..n]);
      assert text == text[..n] + [text[n]];
      UnmarkedSnoc(text[..n], text[n]);
      var before := Unmarked(text[..n]);
      assert !IsStop(text[n]) && before + "" == before;
      assert [before][..0] + [before + [text[n]]] == [before + [text[n]]];
    }
  }

  /** The sentences after one more character. */
  function Continued(sentences: seq<string>, c: char): (more: seq<string>)
    requires sentences != []
    ensures more != []
  {
    var last := |sentences| - 1;
    if IsStop(c) then sentences + [""]
    else if IsMark(c) then sentences
    else sentences[..last] + [sentences[last] + [c]]
  }

  lemma SentencesSnoc(text: string, c: char)
    ensures Sentences(text + [c]) == Continued(Sentences(text), c)
  {
    hide IsStop, IsMark;
    assert (text + [c])[..|text|] == text;
  }

  lemma ContinuedBehind(before: seq<string>, sentences: seq<string>, c: char)
    requires sentences != []
    ensures Continued(before + sentences, c) == before + Continued(sentences, c)
  {
    hide IsStop, IsMark;
  }

  lemma StopStarts(a: string, stop: char)
    requires IsStop(stop)
    ensures Sentences(a + [stop]) == Sentences(a) + Sentences("")
  {
    SentencesSnoc(a, stop);
  }

  /** At a stop the sentences before it and behind it come one after the other. */
  lemma {:induction false} StopSeparates(a: string, stop: char, b: string)
    requires IsStop(stop)
    ensures Sentences(a + [stop] + b) == Sentences(a) + Sentences(b)
  {
    hide *;
    if b == "" {
      assert a + [stop] + b == a + [stop];
      StopStarts(a, stop);
    } else {
      var n := |b| - 1;
      StopSeparates(a, stop, b[..n]);
      assert a + [stop] + b == a + [stop] + b[..n] + [b[n]] && b == b[..n] + [b[n]];
      SentencesSnoc(a + [stop] + b[..n], b[n]);
      SentencesSnoc(b[..n], b[n]);
      ContinuedBehind(Sentences(a), Sentences(b[..n]), b[n]);
    }
  }

  /** The places at which `item` stands. */
  function Places<T(==)>(items: seq<T>, item: T): set<nat> {
    set i: nat | i < |items| && items[i] == item
  }

  lemma {:induction false} CountIsPlaces<T>(items: seq<T>, item: T)
    ensures multiset(items)[item] == |Places(items, item)|
  {
    if items == [] {
      assert Places(items, item) == {};
    } else {
      var n := |items| - 1;
      CountIsPlaces(items[..n], item);
      assert items == items[..n] + [items[n]];
      assert Places(items, item) == Places(items[..n], item) + if items[n] == item then {n} else {};
    }
  }

  function Sixteen(text: string, i: nat): string
    requires i + 16 <= |text|
  {
    text[i..i + 16]
  }

  /** The places at which the sixteen characters from `i` on come again. */
  ghost function SamePlaces(text: string, i: nat): set<nat>
    requires i + 16 <= |text|
  {
    set j: nat | j + 16 <= |text| && Sixteen(text, j) == Sixteen(text, i)
  }

  /**
   * A sentence of twelve characters or more that stands at three places, or, in a text of eighty
   * characters or more without white space, sixteen characters that stand at five.
   */
  lemma CollapsesIff(text: string)
    ensures Collapses(text)
       <==> || (exists part :: part in Sentences(text) && |part| >= 12 && |Places(Sentences(text), part)| >= 3)
            || (|Compact(text)| >= 80
                && exists i: nat :: i + 16 <= |Compact(text)| && |SamePlaces(Compact(text), i)| >= 5)
  {
    forall part
      ensures multiset(Sentences(text))[part] == |Places(Sentences(text), part)|
    {
      CountIsPlaces(Sentences(text), part);
    }
    var compact := Compact(text);
    forall i: nat | i + 16 <= |compact|
      ensures Windows(compact)[i] == Sixteen(compact, i)
      ensures multiset(Windows(compact))[Sixteen(compact, i)] == |SamePlaces(compact, i)|
    {
      CountIsPlaces(Windows(compact), Sixteen(compact, i));
      assert Places(Windows(compact), Sixteen(compact, i)) == SamePlaces(compact, i);
    }
    hide Sentences, Compact, Windows, Places, SamePlaces, Sixteen;
  }

  // Texts that pass

  lemma {:induction false} DistinctOnce<T>(items: seq<T>, item: T)
    requires Distinct(items)
    ensures multiset(items)[item] <= 1
  {
    if items != [] {
      var n := |items| - 1;
      DistinctOnce(items[..n], item);
      assert items == items[..n] + [items[n]];
      if items[n] == item {
        assert item !in items[..n];
      }
    }
  }

  /** A text of nothing but letters, one sentence without a mark. */
  ghost predicate OnlyLetters(text: string) {
    forall i | 0 <= i < |text| :: !IsStop(text[i]) && !IsMark(text[i])
  }

  lemma MarksHoldSpaces(c: char)
    ensures IsSpace(c) ==> IsMark(c)
  {
  }

  lemma {:induction false} LettersAreOneSentence(text: string)
    requires OnlyLetters(text)
    ensures Sentences(text) == [text] && Compact(text) == text
  {
    hide IsStop, IsMark;
    if text != "" {
      var n := |text| - 1;
      LettersAreOneSentence(text[..n]);
      assert !IsStop(text[n]) && !IsMark(text[n]);
      assert !IsSpace(text[n]) by { MarksHoldSpaces(text[n]); }
      assert text == text[..n] + [text[n]];
    }
  }

  /** Letters that are all different never count as repetition. */
  lemma DistinctPasses(text: string)
    requires OnlyLetters(text) && Distinct(text)
    ensures !Collapses(text)
  {
    hide OnlyLetters;
    LettersAreOneSentence(text);
    var windows := Windows(text);
    forall i, j | 0 <= i < j < |windows|
      ensures windows[i] != windows[j]
    {
      assert windows[i][0] == text[i] && windows[j][0] == text[j];
    }
    forall part | part in windows
      ensures multiset(windows)[part] <= 1
    {
      DistinctOnce(windows, part);
    }
    assert multiset([text])[text] == 1;
  }

  function Same(n: nat): string {
    seq(n, _ => 'a')
  }

  lemma {:induction false} AllTheSame<T>(items: seq<T>, item: T)
    requires forall i | 0 <= i < |items| :: items[i] == item
    ensures multiset(items)[item] == |items|
  {
    if items != [] {
      var n := |items| - 1;
      AllTheSame(items[..n], item);
      assert items == items[..n] + [items[n]];
    }
  }

  /** A text of one repeated letter is refused, from eighty characters on. */
  lemma SameCollapses(n: nat)
    requires n >= 80
    ensures Collapses(Same(n))
  {
    var text := Same(n);
    assert OnlyLetters(text);
    LettersAreOneSentence(text);
    var windows := Windows(text);
    forall i | 0 <= i < |windows|
      ensures windows[i] == Same(WINDOW_CHARACTERS)
    {
    }
    AllTheSame(windows, Same(WINDOW_CHARACTERS));
    assert windows[0] in windows;
  }
}
