/**
 * Which translation a paragraph of the course document shows (apps/web/src/timeline.ts,
 * `buildCourseDocument`): the text may be corrected by hand, a translation belongs to the text
 * it was made from, and a stale one is hidden.
 */
module DocumentTranslation {
  import opened Sequences

  datatype Event =
    | Translated(paragraph: string, sourceText: string, text: string, sameLanguage: bool)
    | Corrected(paragraph: string, sequence: nat, text: string)
    | TranslationCorrected(paragraph: string, sequence: nat, sourceText: string, text: string)
    | Other

  /** The translations of a paragraph, in the order of the events. */
  function History(events: seq<Event>, id: string): seq<Event> {
    if events == [] then []
    else
      var n := |events| - 1;
      var before := History(events[..n], id);
      if events[n].Translated? && events[n].paragraph == id then before + [events[n]] else before
  }

  predicate CorrectsText(event: Event, id: string) {
    event.Corrected? && event.paragraph == id && id != ""
  }

  predicate CorrectsTranslation(event: Event, id: string) {
    event.TranslationCorrected? && event.paragraph == id && id != ""
  }

  /** The correction with the highest sequence; of equals, the first. */
  function Latest(events: seq<Event>, corrects: Event -> bool, sequence: Event -> nat): Option<Event> {
    if events == [] then None
    else
      var n := |events| - 1;
      match Latest(events[..n], corrects, sequence)
      case None => if corrects(events[n]) then Some(events[n]) else None
      case Some(best) =>
        if corrects(events[n]) && sequence(events[n]) > sequence(best) then Some(events[n]) else Some(best)
  }

  function SequenceOf(event: Event): nat {
    if event.Corrected? || event.TranslationCorrected? then event.sequence else 0
  }

  function Correction(events: seq<Event>, id: string): Option<Event> {
    Latest(events, event => CorrectsText(event, id), SequenceOf)
  }

  function TranslationCorrection(events: seq<Event>, id: string): Option<Event> {
    Latest(events, event => CorrectsTranslation(event, id), SequenceOf)
  }

  /** It is one of the corrections and none is newer, in whatever order the events come. */
  lemma {:induction false} LatestIsNewest(events: seq<Event>, corrects: Event -> bool, sequence: Event -> nat)
    ensures
      match Latest(events, corrects, sequence)
      case None => forall event | event in events :: !corrects(event)
      case Some(best) =>
        best in events && corrects(best)
        && forall event | event in events && corrects(event) :: sequence(event) <= sequence(best)
  {
    if events != [] {
      var n := |events| - 1;
      LatestIsNewest(events[..n], corrects, sequence);
      assert events == events[..n] + [events[n]];
    }
  }

  function Lookup<T>(entries: map<string, T>, id: string): Option<T> {
    if id in entries then Some(entries[id]) else None
  }

  function LookupAll(entries: map<string, seq<Event>>, id: string): seq<Event> {
    if id in entries then entries[id] else []
  }

  /** The three maps agree with the events for every paragraph. */
  ghost predicate Indexed(events: seq<Event>, translations: map<string, seq<Event>>,
                          corrections: map<string, Event>, translationCorrections: map<string, Event>)
  {
    && (forall id :: LookupAll(translations, id) == History(events, id))
    && (forall id :: Lookup(corrections, id) == Correction(events, id))
    && (forall id :: Lookup(translationCorrections, id) == TranslationCorrection(events, id))
  }

  function Newer(best: Option<Event>, corrects: bool, event: Event): Option<Event> {
    if corrects && (best.None? || SequenceOf(event) > SequenceOf(best.value)) then Some(event) else best
  }

  /** What one more event does to the three answers. */
  lemma OneMoreEvent(events: seq<Event>, event: Event, id: string)
    ensures History(events + [event], id)
         == if event.Translated? && event.paragraph == id then History(events, id) + [event] else History(events, id)
    ensures Correction(events + [event], id) == Newer(Correction(events, id), CorrectsText(event, id), event)
    ensures TranslationCorrection(events + [event], id)
         == Newer(TranslationCorrection(events, id), CorrectsTranslation(event, id), event)
  {
    assert (events + [event])[..|events|] == events;
  }

  /** A map of newest corrections after one more event. */
  function Updated(entries: map<string, Event>, corrects: bool, id: string, event: Event): map<string, Event> {
    if corrects && (id !in entries || SequenceOf(event) > SequenceOf(entries[id]))
    then entries[id := event] else entries
  }

  function Paragraph(event: Event): string {
    if event.Other? then "" else event.paragraph
  }

  lemma IndexStep(events: seq<Event>, event: Event, translations: map<string, seq<Event>>,
                  corrections: map<string, Event>, translationCorrections: map<string, Event>)
    requires Indexed(events, translations, corrections, translationCorrections)
    ensures
      var id := Paragraph(event);
      Indexed(events + [event],
              if event.Translated? then translations[id := LookupAll(translations, id) + [event]] else translations,
              Updated(corrections, CorrectsText(event, id), id, event),
              Updated(translationCorrections, CorrectsTranslation(event, id), id, event))
  {
    hide History, Correction, TranslationCorrection;
    var here := Paragraph(event);
    var more :=
      if event.Translated? then translations[here := LookupAll(translations, here) + [event]] else translations;
    var texts := Updated(corrections, CorrectsText(event, here), here, event);
    var shown := Updated(translationCorrections, CorrectsTranslation(event, here), here, event);
    forall id
      ensures LookupAll(more, id) == History(events + [event], id)
      ensures Lookup(texts, id) == Correction(events + [event], id)
      ensures Lookup(shown, id) == TranslationCorrection(events + [event], id)
    {
      OneMoreEvent(events, event, id);
      assert LookupAll(translations, id) == History(events, id);
      assert Lookup(corrections, id) == Correction(events, id);
      assert Lookup(translationCorrections, id) == TranslationCorrection(events, id);
    }
  }

  lemma NothingIndexed()
    ensures Indexed([], map[], map[], map[])
  {
  }

  /** The first loop of `buildCourseDocument`. */
  method IndexEvents(events: seq<Event>)
      returns (translations: map<string, seq<Event>>, corrections: map<string, Event>,
               translationCorrections: map<string, Event>)
    ensures Indexed(events, translations, corrections, translationCorrections)
  {
    hide Indexed;
    translations, corrections, translationCorrections := map[], map[], map[];
    NothingIndexed();
    for i := 0 to |events|
      invariant Indexed(events[..i], translations, corrections, translationCorrections)
    {
      var event := events[i];
      IndexStep(events[..i], event, translations, corrections, translationCorrections);
      assert events[..i + 1] == events[..i] + [event];
      match event {
        case Translated(id, _, _, _) =>
          translations := translations[id := LookupAll(translations, id) + [event]];
        case Corrected(id, sequence, _) =>
          if id != "" && (id !in corrections || sequence > SequenceOf(corrections[id])) {
            corrections := corrections[id := event];
          }
        case TranslationCorrected(id, sequence, _, _) =>
          if id != "" && (id !in translationCorrections || sequence > SequenceOf(translationCorrections[id])) {
            translationCorrections := translationCorrections[id := event];
          }
        case Other =>
      }
    }
    assert events[..|events|] == events;
  }

  function LastOf(history: seq<Event>): Option<Event> {
    if history == [] then None else Some(history[|history| - 1])
  }

  function SourceOf(event: Option<Event>): string {
    match event
    case Some(Translated(_, sourceText, _, _)) => sourceText
    case Some(TranslationCorrected(_, _, sourceText, _)) => sourceText
    case _ => ""
  }

  /** The last translation made from this text. */
  function LastFrom(history: seq<Event>, original: string): Option<Event> {
    if history == [] then None
    else
      var n := |history| - 1;
      if SourceOf(Some(history[n])) == original then Some(history[n]) else LastFrom(history[..n], original)
  }

  function Or(text: string, otherwise: string): string {
    if text != "" then text else otherwise
  }

  /** What was recognized: the text of the paragraph event, or else what the last translation was made from. */
  function Recognized(events: seq<Event>, id: string, text: string): string {
    Or(text, SourceOf(LastOf(History(events, id))))
  }

  /** The text that is shown. */
  function Original(events: seq<Event>, id: string, text: string): string {
    match Correction(events, id)
    case Some(Corrected(_, _, corrected)) => Or(corrected, Recognized(events, id, text))
    case _ => Recognized(events, id, text)
  }

  function Machine(events: seq<Event>, id: string, original: string): Option<Event> {
    match LastFrom(History(events, id), original)
    case Some(event) => Some(event)
    case None => LastOf(History(events, id))
  }

  /** The correction of the translation, if it was made for the text that is shown. */
  function CurrentCorrection(events: seq<Event>, id: string, original: string): Option<Event> {
    match TranslationCorrection(events, id)
    case Some(event) => if SourceOf(Some(event)) == original then Some(event) else None
    case None => None
  }

  predicate Stale(events: seq<Event>, id: string, text: string) {
    var original := Original(events, id, text);
    var current := CurrentCorrection(events, id, original);
    || (Correction(events, id).Some? && original != Recognized(events, id, text)
        && SourceOf(Machine(events, id, original)) != original && current.None?)
    || (TranslationCorrection(events, id).Some? && current.None?)
  }

  predicate SameLanguage(event: Event) {
    event.Translated? && event.sameLanguage
  }

  /** What stands below the text: nothing, the text itself, or the text of a translation event. */
  datatype Shown = Nothing | SameText | From(event: Event)

  function ShownTranslation(events: seq<Event>, id: string, text: string): Shown {
    var original := Original(events, id, text);
    var machine := Machine(events, id, original);
    if Stale(events, id, text) then Nothing
    else if machine.Some? && SameLanguage(machine.value) then SameText
    else match CurrentCorrection(events, id, original)
      case Some(event) => From(event)
      case None => if machine.Some? then From(machine.value) else Nothing
  }

  lemma {:induction false} HistoryIsTranslations(events: seq<Event>, id: string)
    ensures forall event | event in History(events, id) :: event.Translated? && event.paragraph == id
  {
    if events != [] {
      HistoryIsTranslations(events[..|events| - 1], id);
    }
  }

  lemma {:induction false} LastFromFits(history: seq<Event>, original: string)
    ensures
      match LastFrom(history, original)
      case None => forall event | event in history :: SourceOf(Some(event)) != original
      case Some(event) => event in history && SourceOf(Some(event)) == original
  {
    if history != [] {
      var n := |history| - 1;
      LastFromFits(history[..n], original);
      assert history == history[..n] + [history[n]];
    }
  }

  /** Nobody has corrected the text into something else. */
  predicate TextUnchanged(events: seq<Event>, id: string, text: string) {
    Correction(events, id).None? || Original(events, id, text) == Recognized(events, id, text)
  }

  /**
   * A translation made from another text is shown exactly in one case: neither the text nor a
   * translation has been corrected, no translation was made from the text, and there is one
   * made from something else. A changed text never shows an old translation.
   */
  lemma ForeignTranslationIff(events: seq<Event>, id: string, text: string)
    ensures
      var original := Original(events, id, text);
      var history := History(events, id);
      var shown := ShownTranslation(events, id, text);
      (shown.From? && SourceOf(Some(shown.event)) != original)
      <==> (&& TextUnchanged(events, id, text) && TranslationCorrection(events, id).None?
            && history != [] && !SameLanguage(history[|history| - 1])
            && forall event | event in history :: SourceOf(Some(event)) != original)
  {
    hide History, Latest, LastFrom;
    var original := Original(events, id, text);
    HistoryIsTranslations(events, id);
    LastFromFits(History(events, id), original);
    var history := History(events, id);
    if history != [] {
      assert history[|history| - 1] in history;
    }
  }

  /**
   * As soon as the shown text is translated, that translation is shown, or the text itself when
   * it is in the language of the course, unless a translation was corrected by hand.
   */
  lemma FreshTranslationIsShown(events: seq<Event>, id: string, text: string, translation: string, same: bool)
    requires TranslationCorrection(events, id).None?
    ensures
      var original := Original(events, id, text);
      var event := Translated(id, original, translation, same);
      ShownTranslation(events + [event], id, text) == if same then SameText else From(event)
  {
    var original := Original(events, id, text);
    var event := Translated(id, original, translation, same);
    var later := events + [event];
    assert later[..|later| - 1] == events;
    assert Correction(later, id) == Correction(events, id);
    assert TranslationCorrection(later, id) == TranslationCorrection(events, id);
    assert History(later, id) == History(events, id) + [event];
    assert Original(later, id, text) == original;
  }

  // What a correction by hand does

  /** Every correction of this kind so far has a lower sequence. */
  ghost predicate AllBelow(events: seq<Event>, corrects: Event -> bool, n: nat) {
    forall event | event in events && corrects(event) :: SequenceOf(event) < n
  }

  lemma NewestCorrection(events: seq<Event>, corrects: Event -> bool, event: Event)
    requires corrects(event) && AllBelow(events, corrects, SequenceOf(event))
    ensures Latest(events + [event], corrects, SequenceOf) == Some(event)
  {
    LatestIsNewest(events, corrects, SequenceOf);
    assert (events + [event])[..|events|] == events;
  }

  /** Of corrections with the same sequence the first stays in force. */
  lemma {:induction false} LatestIsFirst(events: seq<Event>, corrects: Event -> bool, sequence: Event -> nat)
      returns (first: nat)
    requires Latest(events, corrects, sequence).Some?
    ensures first < |events| && Latest(events, corrects, sequence) == Some(events[first])
    ensures forall j | 0 <= j < first && corrects(events[j]) :: sequence(events[j]) < sequence(events[first])
  {
    var n := |events| - 1;
    LatestIsNewest(events[..n], corrects, sequence);
    if Latest(events[..n], corrects, sequence) == Latest(events, corrects, sequence) {
      first := LatestIsFirst(events[..n], corrects, sequence);
    } else {
      first := n;
      forall j | 0 <= j < n && corrects(events[j])
        ensures sequence(events[j]) < sequence(events[n])
      {
        assert events[..n][j] in events[..n];
      }
    }
  }

  /** The text shown is the corrected one; without a correction that says something, the recognized one. */
  lemma CorrectedTextIsShown(events: seq<Event>, id: string, text: string, n: nat, corrected: string)
    requires id != "" && AllBelow(events, event => CorrectsText(event, id), n)
    ensures
      var later := events + [Corrected(id, n, corrected)];
      Original(later, id, text) == if corrected != "" then corrected else Recognized(events, id, text)
    ensures text != "" ==> Recognized(events, id, text) == text
    ensures text == "" && History(events, id) != [] ==>
      var last := History(events, id)[|History(events, id)| - 1];
      last.Translated? && Recognized(events, id, text) == last.sourceText
    ensures Correction(events, id).None? ==> Original(events, id, text) == Recognized(events, id, text)
  {
    NewestCorrection(events, event => CorrectsText(event, id), Corrected(id, n, corrected));
    OneMoreEvent(events, Corrected(id, n, corrected), id);
    HistoryIsTranslations(events, id);
  }

  /**
   * A translation that was corrected by hand for another text hides every translation, also one made
   * from the text that is shown now.
   */
  lemma OutdatedCorrectionHides(events: seq<Event>, id: string, text: string, n: nat, corrected: string)
    requires id != "" && AllBelow(events, event => CorrectsText(event, id), n) && corrected != ""
    requires TranslationCorrection(events, id).Some?
    requires SourceOf(TranslationCorrection(events, id)) != corrected
    ensures ShownTranslation(events + [Corrected(id, n, corrected)], id, text) == Nothing
  {
    NewestCorrection(events, event => CorrectsText(event, id), Corrected(id, n, corrected));
    OneMoreEvent(events, Corrected(id, n, corrected), id);
    hide History, Latest, LastFrom;
  }

  lemma {:induction false} HistoryWithin(events: seq<Event>, id: string)
    ensures forall event | event in History(events, id) :: event in events && event.Translated? && event.paragraph == id
  {
    if events != [] {
      HistoryWithin(events[..|events| - 1], id);
    }
  }

  /** A text corrected into one that was never translated hides every translation. */
  lemma CorrectedTextHidesTranslation(events: seq<Event>, id: string, text: string, n: nat, corrected: string)
    requires id != "" && AllBelow(events, event => CorrectsText(event, id), n)
    requires corrected != "" && corrected != Recognized(events, id, text)
    requires forall event | event in events :: SourceOf(Some(event)) != corrected
    ensures ShownTranslation(events + [Corrected(id, n, corrected)], id, text) == Nothing
  {
    var later := events + [Corrected(id, n, corrected)];
    NewestCorrection(events, event => CorrectsText(event, id), Corrected(id, n, corrected));
    OneMoreEvent(events, Corrected(id, n, corrected), id);
    HistoryWithin(events, id);
    LastFromFits(History(events, id), corrected);
    LatestIsNewest(events, event => CorrectsTranslation(event, id), SequenceOf);
    hide History, Latest, LastFrom;
  }

  /** The event is about another paragraph, or it is one more translation of the text that is shown. */
  predicate LeavesText(event: Event, id: string, original: string) {
    Paragraph(event) != id || (event.Translated? && event.sourceText == original)
  }

  lemma {:induction false} TextStays(events: seq<Event>, more: seq<Event>, id: string, text: string)
    requires id != "" && forall event | event in more :: LeavesText(event, id, Original(events, id, text))
    ensures Original(events + more, id, text) == Original(events, id, text)
    ensures Correction(events + more, id) == Correction(events, id)
    ensures TranslationCorrection(events + more, id) == TranslationCorrection(events, id)
  {
    if more == [] {
      assert events + more == events;
    } else {
      hide History, Correction, TranslationCorrection;
      var n := |more| - 1;
      TextStays(events, more[..n], id, text);
      assert events + more == events + more[..n] + [more[n]];
      assert more[n] in more && LeavesText(more[n], id, Original(events, id, text));
      OneMoreEvent(events + more[..n], more[n], id);
    }
  }

  /**
   * A translation corrected by hand for the shown text is shown, and stays whatever machine
   * translations of the same text follow, unless the last of these only repeats the text.
   */
  lemma CorrectedTranslationIsShown(events: seq<Event>, id: string, text: string, n: nat, translation: string,
                                    more: seq<Event>)
    requires id != "" && AllBelow(events, event => CorrectsTranslation(event, id), n)
    requires forall event | event in more :: LeavesText(event, id, Original(events, id, text))
    ensures
      var original := Original(events, id, text);
      var correction := TranslationCorrected(id, n, original, translation);
      var later := events + [correction] + more;
      var machine := Machine(later, id, original);
      ShownTranslation(later, id, text)
        == if machine.Some? && machine.value.Translated? && machine.value.sameLanguage then SameText
           else From(correction)
  {
    var original := Original(events, id, text);
    var correction := TranslationCorrected(id, n, original, translation);
    NewestCorrection(events, event => CorrectsTranslation(event, id), correction);
    OneMoreEvent(events, correction, id);
    hide History, Machine, Correction;
    TextStays(events + [correction], more, id, text);
  }

  lemma {:induction false} LastFromIs(history: seq<Event>, original: string, k: nat)
    requires k < |history| && SourceOf(Some(history[k])) == original
    requires forall j | k < j < |history| :: SourceOf(Some(history[j])) != original
    ensures LastFrom(history, original) == Some(history[k])
  {
    var n := |history| - 1;
    if k < n {
      LastFromIs(history[..n], original, k);
    }
  }

  /** The translation that counts: the last one made from the text, or else the last one of all. */
  lemma MachineIsLast(events: seq<Event>, id: string, original: string, k: nat)
    requires k < |History(events, id)|
    requires
      var history := History(events, id);
      if SourceOf(Some(history[k])) == original
      then forall j | k < j < |history| :: SourceOf(Some(history[j])) != original
      else k == |history| - 1 && forall j | 0 <= j < |history| :: SourceOf(Some(history[j])) != original
    ensures Machine(events, id, original) == Some(History(events, id)[k])
  {
    var history := History(events, id);
    if SourceOf(Some(history[k])) == original {
      LastFromIs(history, original, k);
    } else {
      LastFromFits(history, original);
    }
    hide History, LastFrom;
  }
}
