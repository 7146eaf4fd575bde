/**
 * Where the reduction of an overview can fail although every reply is legal (workers/gpu_agent/
 * course_summary.py, the end of `compile_course`; workers/model_worker/teaching.py, `valid_part`).
 */
module OverviewLimits {
  import opened Sequences
  import opened TextBatches
  import opened CourseOverview
  import Repetition

  // Replies as long as the receiver lets pass

  /** Every reply that is asked for is as long as the receiver allows. */
  ghost predicate LongestPass(notes: seq<string>, next: seq<string>) {
    && LegalPass(notes, next)
    && forall i | 0 <= i < |next| :: Bytes(next[i]) == Longest(Batches(notes, NOTE_BATCH_BYTES)[i])
  }

  lemma LongestIsLegal(notes: seq<string>, next: seq<string>)
    requires LongestPass(notes, next)
    ensures LegalPass(notes, next)
  {
  }

  /** From level `from` on. */
  ghost predicate LongestFrom(notes: seq<string>, reply: Replies, from: nat) {
    forall k: nat | from <= k && Asked(notes, reply, k) ::
      LongestPass(Level(notes, reply, k), Level(notes, reply, k + 1))
  }

  /** These two neighbours are too long together, and stay so for `passes` more passes. */
  predicate WidePair(sizes: seq<nat>, i: nat, passes: nat)
    requires i + 1 < |sizes|
  {
    sizes[i] + SEPARATOR_BYTES + sizes[i + 1] > NOTE_BATCH_BYTES + 2 * passes
  }

  ghost predicate Wide(sizes: seq<nat>, passes: nat) {
    exists i: nat | i + 1 < |sizes| :: WidePair(sizes, i, passes)
  }

  /** Nothing becomes too short to be answered in so many more passes. */
  predicate Lasting(sizes: seq<nat>, passes: nat) {
    forall i | 0 <= i < |sizes| :: sizes[i] >= passes + 2
  }

  /**
   * A condition on the notes alone: every batch can be answered, and either the longest answers
   * make nothing shorter, or two neighbours of them stay too long for one request until the last
   * pass.
   */
  ghost predicate Hopeless(notes: seq<string>) {
    && !Ready(notes)
    && (forall i | 0 <= i < |LongestSizes(notes)| :: LongestSizes(notes)[i] > 0)
    && (|| MostAfterPass(notes) >= Size(notes)
        || (notes != [] && Wide(LongestSizes(notes), |notes| - 1) && Lasting(LongestSizes(notes), |notes| - 1)))
  }

  lemma LongestSizesReached(notes: seq<string>, next: seq<string>)
    requires LongestPass(notes, next)
    ensures Sizes(next) == LongestSizes(notes) && Size(next) == MostAfterPass(notes)
  {
    hide Bytes, Longest, Batches, Total;
    SizeIsTotal(next);
    assert Sizes(next) == LongestSizes(notes);
  }

  lemma {:induction false} PrefixTotal(sizes: seq<nat>, k: nat)
    requires k <= |sizes|
    ensures Total(sizes[..k]) <= Total(sizes)
    decreases |sizes|
  {
    if k < |sizes| {
      PrefixTotal(sizes[..|sizes| - 1], k);
      assert sizes[..|sizes| - 1][..k] == sizes[..k];
    } else {
      assert sizes[..k] == sizes;
    }
  }

  lemma TwoTotal(sizes: seq<nat>)
    requires |sizes| == 2
    ensures Total(sizes) == sizes[0] + SEPARATOR_BYTES + sizes[1]
  {
    assert sizes[..1][..0] == [];
    assert Total([]) == 0;
  }

  lemma PairTotal(sizes: seq<nat>, i: nat)
    requires i + 1 < |sizes|
    ensures Total(sizes) >= sizes[i] + SEPARATOR_BYTES + sizes[i + 1]
  {
    PrefixTotal(sizes, i + 2);
    assert sizes[..i + 2][..i + 1] == sizes[..i + 1];
    assert Total(sizes[..i + 1]) >= sizes[i];
  }

  /** Texts with a wide pair are too long for one request. */
  lemma WideIsLong(texts: seq<string>, passes: nat)
    requires Wide(Sizes(texts), passes)
    ensures !Ready(texts)
  {
    hide Bytes, Total, Size;
    var i: nat :| i + 1 < |texts| && WidePair(Sizes(texts), i, passes);
    SizeIsTotal(texts);
    PairTotal(Sizes(texts), i);
  }

  /** No batch is smaller than every text. */
  lemma BatchesLast(texts: seq<string>, low: nat)
    requires AllFit(texts, NOTE_BATCH_BYTES) && forall i | 0 <= i < |texts| :: Bytes(texts[i]) >= low
    ensures forall j | 0 <= j < |Batches(texts, NOTE_BATCH_BYTES)| ::
              Bytes(Batches(texts, NOTE_BATCH_BYTES)[j]) >= low
  {
    WholePieces(texts, NOTE_BATCH_BYTES);
    GroupedIsBatched(texts, NOTE_BATCH_BYTES);
    var groups := Grouped(texts, NOTE_BATCH_BYTES);
    hide Bytes, Join, Flatten, Grouped;
    forall j | 0 <= j < |groups|
      ensures Bytes(Join(groups[j])) >= low
    {
      assert Fits(groups, j, NOTE_BATCH_BYTES);
      PartPlace(groups, j);
      assert groups[j][0] == texts[|Flatten(groups[..j])|];
      JoinHolds(groups[j], 0);
    }
  }

  /** The two texts of a wide pair come into neighbouring batches. */
  lemma PairOfBatches(texts: seq<string>, passes: nat) returns (i: nat, j: nat)
    requires AllFit(texts, NOTE_BATCH_BYTES) && Wide(Sizes(texts), passes)
    ensures i + 1 < |texts| && WidePair(Sizes(texts), i, passes)
    ensures
      var batches := Batches(texts, NOTE_BATCH_BYTES);
      && j + 1 < |batches|
      && Bytes(batches[j]) >= Bytes(texts[i]) && Bytes(batches[j + 1]) >= Bytes(texts[i + 1])
  {
    i :| i + 1 < |texts| && WidePair(Sizes(texts), i, passes);
    WholePieces(texts, NOTE_BATCH_BYTES);
    GroupedIsBatched(texts, NOTE_BATCH_BYTES);
    hide Bytes, Join, Flatten, Grouped, Batched;
    j := Separated(Grouped(texts, NOTE_BATCH_BYTES), texts, NOTE_BATCH_BYTES, i);
  }

  lemma LongestIsClose(batch: string)
    ensures Longest(batch) + 1 >= Bytes(batch) || Longest(batch) == REDUCED_BYTES
  {
  }

  /** Such texts can be answered, and the longest answers take one byte at most from each size. */
  lemma WideIsAnswerable(texts: seq<string>, passes: nat)
    requires AllFit(texts, NOTE_BATCH_BYTES) && AllFit(texts, REDUCED_BYTES)
    requires Wide(Sizes(texts), passes) && Lasting(Sizes(texts), passes)
    ensures forall i | 0 <= i < |LongestSizes(texts)| :: LongestSizes(texts)[i] > passes
    ensures passes > 0 ==> Wide(LongestSizes(texts), passes - 1)
  {
    var batches, longest := Batches(texts, NOTE_BATCH_BYTES), LongestSizes(texts);
    var low := if passes + 2 < REDUCED_BYTES then passes + 2 else REDUCED_BYTES;
    var i, j := PairOfBatches(texts, passes);
    hide Bytes, Batches;
    assert Sizes(texts)[i] <= REDUCED_BYTES && Sizes(texts)[i + 1] <= REDUCED_BYTES;
    forall k | 0 <= k < |texts|
      ensures Bytes(texts[k]) >= passes + 2
    {
      assert Sizes(texts)[k] >= passes + 2;
    }
    BatchesLast(texts, passes + 2);
    forall k | 0 <= k < |longest|
      ensures longest[k] > passes
    {
      LongestIsClose(batches[k]);
      assert longest[k] == Longest(batches[k]);
    }
    if passes > 0 {
      LongestIsClose(batches[j]);
      LongestIsClose(batches[j + 1]);
      assert longest[j] == Longest(batches[j]) && longest[j + 1] == Longest(batches[j + 1]);
      assert WidePair(longest, j, passes - 1);
    }
  }

  /** One pass over wide texts takes one byte from each size at most. */
  lemma WideShrinks(texts: seq<string>, next: seq<string>, passes: nat)
    requires AllFit(texts, NOTE_BATCH_BYTES) && AllFit(texts, REDUCED_BYTES)
    requires Wide(Sizes(texts), passes) && Lasting(Sizes(texts), passes) && passes > 0
    requires LongestPass(texts, next)
    ensures AllFit(next, NOTE_BATCH_BYTES) && AllFit(next, REDUCED_BYTES)
    ensures Wide(Sizes(next), passes - 1) && Lasting(Sizes(next), passes - 1)
  {
    WideIsAnswerable(texts, passes);
    LongestSizesReached(texts, next);
    LongestIsLegal(texts, next);
    LegalPassFits(texts, next);
  }

  /** Wide texts are still too long when the passes are used up. */
  lemma {:induction false} NeverEnough(notes: seq<string>, reply: Replies, level: nat, rounds: nat)
    requires LongestFrom(notes, reply, level) && Reached(notes, reply, 0, level)
    requires rounds > 0 && level + rounds == |notes| + 1
    requires AllFit(Level(notes, reply, level), NOTE_BATCH_BYTES) && AllFit(Level(notes, reply, level), REDUCED_BYTES)
    requires Wide(Sizes(Level(notes, reply, level)), rounds - 1)
    requires Lasting(Sizes(Level(notes, reply, level)), rounds - 1)
    ensures Reduction(notes, reply, level, rounds).None?
    decreases rounds
  {
    hide Size, Level, Reduction, LongestPass, AllFit, Reached, Wide, Lasting;
    var now := Level(notes, reply, level);
    ReductionTurn(notes, reply, level, rounds);
    WideIsLong(now, rounds - 1);
    assert Asked(notes, reply, level);
    if Shrinks(notes, reply, level) {
      ReachedNext(notes, reply, level);
      if rounds == 1 {
        ReductionStops(notes, reply, level + 1);
      } else {
        WideShrinks(now, Level(notes, reply, level + 1), rounds - 1);
        NeverEnough(notes, reply, level + 1, rounds - 1);
      }
    }
  }

  /** No replies of the greatest legal length lead to an overview. */
  lemma OverviewFails(notes: seq<string>, reply: Replies)
    requires Hopeless(notes) && LongestFrom(notes, reply, 0)
    ensures OverviewNotes(notes, reply).None?
  {
    hide Size, Level, Reduction, LongestPass, AllFit, MostAfterPass, Longest, LongestSizes, Wide, Lasting;
    var next := Level(notes, reply, 1);
    FirstLevel(notes, reply);
    assert Asked(notes, reply, 0);
    LongestSizesReached(notes, next);
    LongestIsLegal(notes, next);
    LegalPassFits(notes, next);
    ReductionTurn(notes, reply, 0, |notes| + 1);
    if Shrinks(notes, reply, 0) {
      ReachedNext(notes, reply, 0);
      NeverEnough(notes, reply, 1, |notes|);
    }
  }

  // Such replies exist

  /** So many different Chinese characters. */
  function Hanzi(count: nat): (text: string)
    requires count <= REDUCED_CHARACTERS
    ensures |text| == count
  {
    seq(count, i requires 0 <= i < count => (0x4E00 + i) as char)
  }

  /** A legal text of `size` bytes: as few characters as possible, and none of them twice. */
  function Filler(size: nat): (text: string)
    requires size <= REDUCED_BYTES
    ensures |text| == (size + 2) / 3
  {
    Hanzi(size / 3) + if size % 3 == 0 then "" else if size % 3 == 1 then "a" else "é"
  }

  lemma {:induction false} HanziBytes(count: nat)
    requires count <= REDUCED_CHARACTERS
    ensures Bytes(Hanzi(count)) == 3 * count
  {
    if count > 0 {
      HanziBytes(count - 1);
      assert Hanzi(count) == Hanzi(count - 1) + [(0x4E00 + (count - 1)) as char];
      BytesAppend(Hanzi(count - 1), [(0x4E00 + (count - 1)) as char]);
      OneCharacter((0x4E00 + (count - 1)) as char);
    }
  }

  lemma FillerBytes(size: nat)
    requires size <= REDUCED_BYTES
    ensures Bytes(Filler(size)) == size
  {
    HanziBytes(size / 3);
    OneCharacter('a');
    OneCharacter('é');
    assert Utf8('é') == 2 && Utf8('a') == 1;
    var tail := if size % 3 == 0 then "" else if size % 3 == 1 then "a" else "é";
    BytesAppend(Hanzi(size / 3), tail);
    hide Hanzi;
  }

  /** The receiver finds no repetition in it, and from three bytes on it is Chinese. */
  lemma FillerIsVaried(size: nat)
    requires size <= REDUCED_BYTES
    ensures !Repetition.Collapses(Filler(size))
    ensures size >= 3 ==> Filler(size)[0] as nat == 0x4E00
  {
    var text := Filler(size);
    forall i | 0 <= i < |text|
      ensures text[i] as nat == if i < size / 3 then 0x4E00 + i else if size % 3 == 1 then 0x61 else 0xE9
    {
    }
    Repetition.DistinctPasses(text);
  }

  function Fillers(sizes: seq<nat>): (texts: seq<string>)
    requires forall i | 0 <= i < |sizes| :: sizes[i] <= REDUCED_BYTES
    ensures |texts| == |sizes|
  {
    seq(|sizes|, i requires 0 <= i < |sizes| => Filler(sizes[i]))
  }

  /** The levels when every reply is a text of the greatest legal length. */
  function LongestLevel(notes: seq<string>, k: nat): seq<string> {
    if k == 0 then notes else Fillers(LongestSizes(LongestLevel(notes, k - 1)))
  }

  function Stubborn(notes: seq<string>): Replies {
    (level: nat, i: nat) =>
      var next := LongestLevel(notes, level + 1);
      if i < |next| then next[i] else "a"
  }

  lemma StubbornReply(notes: seq<string>, k: nat, i: nat)
    requires i < |LongestLevel(notes, k + 1)|
    ensures Stubborn(notes)(k, i) == LongestLevel(notes, k + 1)[i]
  {
    hide LongestLevel;
  }

  lemma {:induction false} StubbornLevel(notes: seq<string>, k: nat)
    ensures Level(notes, Stubborn(notes), k) == LongestLevel(notes, k)
  {
    hide Filler, Longest, Batches, Stubborn;
    if k > 0 {
      StubbornLevel(notes, k - 1);
      var now, next := LongestLevel(notes, k - 1), LongestLevel(notes, k);
      forall i | 0 <= i < |next|
        ensures Stubborn(notes)(k - 1, i) == next[i]
      {
        StubbornReply(notes, k - 1, i);
      }
      assert Reduced(now, Stubborn(notes), k - 1) == next;
    }
  }

  /** Bytes of the shortest reply to a long batch: seventy-nine Chinese characters and a letter. */
  const SHORTEST_BYTES: nat := 238

  /** A legal size for a short reply to a batch that can be answered. */
  function Least(batch: string): (size: nat)
    ensures 1 <= size <= SHORTEST_BYTES
  {
    if |batch| >= LONG_SOURCE_CHARACTERS then SHORTEST_BYTES else 1
  }

  /** A batch can be answered exactly when it has two bytes or more. */
  lemma AnswerableIff(batch: string)
    ensures Longest(batch) > 0 <==> Bytes(batch) > 1
    ensures Longest(batch) > 0 ==> Least(batch) <= Longest(batch)
  {
  }

  lemma FillerIsLegal(batch: string, size: nat)
    requires Least(batch) <= size <= Longest(batch)
    ensures Legal(batch, Filler(size)) && Bytes(Filler(size)) == size
  {
    FillerBytes(size);
    FillerIsVaried(size);
    hide Bytes, Filler, Repetition.Collapses;
  }

  /** They are legal as long as every batch has two bytes or more. */
  lemma FillersAreLegal(notes: seq<string>)
    requires forall i | 0 <= i < |LongestSizes(notes)| :: LongestSizes(notes)[i] > 0
    ensures LongestPass(notes, Fillers(LongestSizes(notes)))
  {
    hide Bytes, Batches, Filler, Longest, Least, Legal;
    var batches, sizes := Batches(notes, NOTE_BATCH_BYTES), LongestSizes(notes);
    forall i | 0 <= i < |sizes|
      ensures Legal(batches[i], Fillers(sizes)[i]) && Bytes(Fillers(sizes)[i]) == sizes[i]
    {
      assert sizes[i] > 0 && sizes[i] == Longest(batches[i]);
      AnswerableIff(batches[i]);
      FillerIsLegal(batches[i], sizes[i]);
    }
  }

  /** Wide sizes stay wide for as many passes as they are wide for. */
  lemma {:induction false} StaysWide(texts: seq<string>, passes: nat, k: nat)
    requires Wide(LongestSizes(texts), passes) && Lasting(LongestSizes(texts), passes) && 1 <= k <= passes + 1
    ensures AllFit(LongestLevel(texts, k), NOTE_BATCH_BYTES) && AllFit(LongestLevel(texts, k), REDUCED_BYTES)
    ensures Wide(Sizes(LongestLevel(texts, k)), passes + 1 - k)
    ensures Lasting(Sizes(LongestLevel(texts, k)), passes + 1 - k)
    ensures LongestPass(LongestLevel(texts, k), LongestLevel(texts, k + 1))
  {
    hide Bytes, Batches, Filler, Size, LongestPass, AllFit, Fillers, MostAfterPass, Longest, Wide;
    var now := LongestLevel(texts, k);
    if k == 1 {
      FillersAreLegal(texts);
      assert LongestLevel(texts, 0) == texts;
      LongestSizesReached(texts, now);
      LongestIsLegal(texts, now);
      LegalPassFits(texts, now);
    } else {
      StaysWide(texts, passes, k - 1);
      WideShrinks(LongestLevel(texts, k - 1), now, passes + 2 - k);
    }
    WideIsAnswerable(now, passes + 1 - k);
    FillersAreLegal(now);
  }

  lemma FirstStubborn(notes: seq<string>)
    requires Hopeless(notes)
    ensures LongestLevel(notes, 0) == notes
    ensures LongestPass(notes, LongestLevel(notes, 1))
  {
    hide LongestPass, Wide, LongestSizes, MostAfterPass, Size;
    FillersAreLegal(notes);
  }

  lemma SecondIsAsked(notes: seq<string>, k: nat)
    requires Hopeless(notes) && Reached(notes, Stubborn(notes), 0, k) && k > 0
    ensures MostAfterPass(notes) < Size(notes)
  {
    hide LongestPass, Size, Stubborn, Level, LongestLevel, Hopeless, MostAfterPass, Ready;
    StubbornLevel(notes, 0);
    StubbornLevel(notes, 1);
    FirstStubborn(notes);
    LongestSizesReached(notes, LongestLevel(notes, 1));
    assert Shrinks(notes, Stubborn(notes), 0);
  }

  lemma HopelessIsWide(notes: seq<string>)
    requires Hopeless(notes) && MostAfterPass(notes) < Size(notes)
    ensures notes != [] && Wide(LongestSizes(notes), |notes| - 1) && Lasting(LongestSizes(notes), |notes| - 1)
  {
  }

  lemma StubbornPass(notes: seq<string>, k: nat)
    requires Hopeless(notes) && Asked(notes, Stubborn(notes), k)
    ensures LongestPass(Level(notes, Stubborn(notes), k), Level(notes, Stubborn(notes), k + 1))
  {
    hide LongestPass, Size, Stubborn, Level, LongestLevel, Hopeless, MostAfterPass, Reached, Ready;
    StubbornLevel(notes, k);
    StubbornLevel(notes, k + 1);
    FirstStubborn(notes);
    if k > 0 {
      SecondIsAsked(notes, k);
      StaysWide(notes, |notes| - 1, k) by { HopelessIsWide(notes); }
    }
  }

  /** Legal replies without an overview, for every hopeless course. */
  lemma OverviewCanFail(notes: seq<string>)
    requires Hopeless(notes)
    ensures LongestFrom(notes, Stubborn(notes), 0) && AllLegal(notes, Stubborn(notes))
    ensures OverviewNotes(notes, Stubborn(notes)).None?
  {
    hide Level, LongestLevel, LongestPass, LegalPass, Wide, LongestSizes, MostAfterPass, Size, Ready, Stubborn;
    var reply := Stubborn(notes);
    forall k: nat | Asked(notes, reply, k)
      ensures LongestPass(Level(notes, reply, k), Level(notes, reply, k + 1))
      ensures LegalPass(Level(notes, reply, k), Level(notes, reply, k + 1))
    {
      StubbornPass(notes, k);
      LongestIsLegal(Level(notes, reply, k), Level(notes, reply, k + 1));
    }
    OverviewFails(notes, reply);
  }

  lemma TwoAreHopeless(notes: seq<string>)
    requires |Batches(notes, NOTE_BATCH_BYTES)| == 2 && !Affordable(notes)
    ensures Hopeless(notes)
  {
    hide Batches, Total, Bytes;
    NoNotesAreReady(notes);
    var sizes := LongestSizes(notes);
    TwoTotal(sizes);
    assert Total(sizes) > NOTE_BATCH_BYTES;
    var passes := |notes| - 1;
    assert sizes[0] + SEPARATOR_BYTES + sizes[1] > NOTE_BATCH_BYTES + 2 * passes ==> WidePair(sizes, 0, passes);
  }

  /**
   * For notes that make two batches the condition is exact: an overview is written whatever the
   * legal replies are, if and only if the notes are affordable.
   */
  lemma TwoBatchesIff(notes: seq<string>)
    requires |Batches(notes, NOTE_BATCH_BYTES)| == 2
    ensures (forall reply: Replies | AllLegal(notes, reply) :: OverviewNotes(notes, reply).Some?)
       <==> Affordable(notes)
  {
    hide AllLegal, OverviewNotes;
    if Affordable(notes) {
      forall reply: Replies | AllLegal(notes, reply)
        ensures OverviewNotes(notes, reply).Some?
      {
        OverviewIsWritten(notes, reply);
      }
    } else {
      TwoAreHopeless(notes);
      OverviewCanFail(notes);
    }
  }

  lemma LongNotesAreHopeless(notes: seq<string>)
    requires 2 <= |notes| <= 351
    requires forall i | 0 <= i < |notes| :: 1750 + |notes| <= Bytes(notes[i]) <= NOTE_BATCH_BYTES
    ensures Hopeless(notes)
  {
    forall i | 0 <= i < |notes|
      ensures notes[i] != ""
    {
      assert Bytes("") == 0;
    }
    assert WidePair(Sizes(notes), 0, |notes| - 1) by { hide Bytes; }
    WideIsLong(notes, |notes| - 1);
    BatchesLast(notes, 1750 + |notes|);
    var i, j := PairOfBatches(notes, |notes| - 1);
    var batches, longest := Batches(notes, NOTE_BATCH_BYTES), LongestSizes(notes);
    hide Bytes, Batches, Size, Total;
    forall k | 0 <= k < |longest|
      ensures longest[k] >= 1749 + |notes|
    {
      LongestIsClose(batches[k]);
      assert longest[k] == Longest(batches[k]);
    }
    assert WidePair(longest, j, |notes| - 1);
  }

  /** With any number of chapters: so many long notes cannot be reduced against such replies. */
  lemma ManyLongNotesCanFail(notes: seq<string>)
    requires 2 <= |notes| <= 351
    requires forall i | 0 <= i < |notes| :: 1750 + |notes| <= Bytes(notes[i]) <= NOTE_BATCH_BYTES
    ensures Hopeless(notes)
    ensures AllLegal(notes, Stubborn(notes)) && OverviewNotes(notes, Stubborn(notes)).None?
  {
    hide OverviewNotes, AllLegal, Stubborn;
    LongNotesAreHopeless(notes);
    OverviewCanFail(notes);
  }

  /** 700 three-byte characters. */
  function FullChapter(): string {
    Filler(REDUCED_BYTES)
  }

  lemma FullChapterBytes()
    ensures |FullChapter()| == REDUCED_CHARACTERS && Bytes(FullChapter()) == REDUCED_BYTES
  {
    FillerBytes(REDUCED_BYTES);
    hide Bytes, Filler;
  }

  lemma TwoTogether(a: string, b: string)
    ensures Size([a, b]) == Bytes(a) + SEPARATOR_BYTES + Bytes(b)
  {
    hide Bytes, Join;
    SizeIsTotal([a, b]);
    TwoTotal(Sizes([a, b]));
  }

  /**
   * Such a course: two chapters of 700 three-byte characters each, 4202 bytes together.
   * Replies of 2099, 2098 and 2097 bytes are legal, and after three passes there is no overview.
   */
  lemma TwoFullChaptersCanFail()
    ensures
      var notes := [FullChapter(), FullChapter()];
      && Size(notes) == 4202
      && AllLegal(notes, Stubborn(notes)) && OverviewNotes(notes, Stubborn(notes)).None?
  {
    var notes := [FullChapter(), FullChapter()];
    hide Bytes, FullChapter, Size, Hopeless, OverviewNotes, AllLegal, Stubborn;
    FullChapterBytes();
    TwoTogether(FullChapter(), FullChapter());
    ManyLongNotesCanFail(notes);
  }

  // Four batches or more

  function LeastSizes(notes: seq<string>): (sizes: seq<nat>)
    ensures |sizes| == |Batches(notes, NOTE_BATCH_BYTES)|
    ensures forall i | 0 <= i < |sizes| :: 1 <= sizes[i] <= SHORTEST_BYTES
  {
    var batches := Batches(notes, NOTE_BATCH_BYTES);
    seq(|batches|, i requires 0 <= i < |batches| => Least(batches[i]))
  }

  /** Sizes of two replies that fit together into one batch, but are no less than one full reply. */
  function PairOf(first: nat, least: nat, otherLeast: nat): (pair: (nat, nat)) {
    if 1396 <= first <= REDUCED_BYTES
    then (first, if REDUCED_BYTES + 1 - first > otherLeast then REDUCED_BYTES + 1 - first else otherLeast)
    else (least, REDUCED_BYTES)
  }

  /** Two such pairs, and the longest reply for every further batch. */
  function OpeningSizes(longest: seq<nat>, least: seq<nat>): (sizes: seq<nat>)
    requires |longest| == |least| >= 4
    ensures |sizes| == |longest|
  {
    var first := PairOf(longest[0], least[0], least[1]);
    var second := PairOf(longest[2], least[2], least[3]);
    [first.0, first.1, second.0, second.1] + longest[4..]
  }

  function Opening(notes: seq<string>): (sizes: seq<nat>)
    requires |Batches(notes, NOTE_BATCH_BYTES)| >= 4
    ensures |sizes| == |Batches(notes, NOTE_BATCH_BYTES)|
    ensures forall i | 0 <= i < |sizes| :: sizes[i] <= REDUCED_BYTES
  {
    OpeningSizes(LongestSizes(notes), LeastSizes(notes))
  }

  /** A batch is full only beside a neighbour that does not fit. */
  lemma NeighboursAreLong(notes: seq<string>, i: nat)
    requires i + 1 < |Batches(notes, NOTE_BATCH_BYTES)|
    ensures
      var batches := Batches(notes, NOTE_BATCH_BYTES);
      Bytes(batches[i]) + SEPARATOR_BYTES + Bytes(batches[i + 1]) > NOTE_BATCH_BYTES
  {
    var pieces := AllPieces(notes, NOTE_BATCH_BYTES);
    var groups := Grouped(pieces, NOTE_BATCH_BYTES);
    AllPiecesJoin(notes, NOTE_BATCH_BYTES);
    GroupedIsBatched(pieces, NOTE_BATCH_BYTES);
    hide Bytes, Grouped, AllPieces, Join;
    assert Fits(groups, i + 1, NOTE_BATCH_BYTES) && Full(groups, i, NOTE_BATCH_BYTES);
    JoinPrefix(groups[i + 1], 1);
    assert groups[i + 1][..1] == [groups[i + 1][0]];
    JoinOne(groups[i + 1][0]);
  }

  /** So the pair that opens with the longest first reply is legal. */
  lemma PairIsLegal(first: nat, a: nat, b: nat, least: nat, otherLeast: nat)
    requires a > 1 && b > 1 && a + SEPARATOR_BYTES + b > NOTE_BATCH_BYTES
    requires first == if a > REDUCED_BYTES then REDUCED_BYTES else a - 1
    requires 1 <= least <= first && 1 <= otherLeast <= if b > REDUCED_BYTES then REDUCED_BYTES else b - 1
    ensures least <= PairOf(first, least, otherLeast).0 <= first
    ensures otherLeast <= PairOf(first, least, otherLeast).1 <= if b > REDUCED_BYTES then REDUCED_BYTES else b - 1
  {
  }

  lemma AllAnswerable(notes: seq<string>, i: nat)
    requires i < |LongestSizes(notes)| && LongestSizes(notes)[i] > 0
    ensures Bytes(Batches(notes, NOTE_BATCH_BYTES)[i]) > 1
    ensures LongestSizes(notes)[i] == Longest(Batches(notes, NOTE_BATCH_BYTES)[i])
    ensures LeastSizes(notes)[i] <= LongestSizes(notes)[i]
  {
    AnswerableIff(Batches(notes, NOTE_BATCH_BYTES)[i]);
    hide Bytes, Batches, Least;
  }

  lemma PairFits(notes: seq<string>, i: nat)
    requires i + 1 < |LongestSizes(notes)| && LongestSizes(notes)[i] > 0 && LongestSizes(notes)[i + 1] > 0
    ensures
      var longest, least := LongestSizes(notes), LeastSizes(notes);
      var pair := PairOf(longest[i], least[i], least[i + 1]);
      least[i] <= pair.0 <= longest[i] && least[i + 1] <= pair.1 <= longest[i + 1]
  {
    hide Bytes, Batches, PairOf, LongestSizes, LeastSizes;
    var batches, longest, least := Batches(notes, NOTE_BATCH_BYTES), LongestSizes(notes), LeastSizes(notes);
    AllAnswerable(notes, i);
    AllAnswerable(notes, i + 1);
    NeighboursAreLong(notes, i);
    PairIsLegal(longest[i], Bytes(batches[i]), Bytes(batches[i + 1]), least[i], least[i + 1]);
  }

  /** Every size of the opening is that of some legal reply. */
  lemma OpeningFits(notes: seq<string>)
    requires |Batches(notes, NOTE_BATCH_BYTES)| >= 4
    requires forall i | 0 <= i < |LongestSizes(notes)| :: LongestSizes(notes)[i] > 0
    ensures forall i | 0 <= i < |Opening(notes)| :: LeastSizes(notes)[i] <= Opening(notes)[i] <= LongestSizes(notes)[i]
  {
    hide Bytes, Batches, PairOf, LongestSizes, LeastSizes;
    PairFits(notes, 0);
    PairFits(notes, 2);
    var sizes, longest, least := Opening(notes), LongestSizes(notes), LeastSizes(notes);
    forall i | 0 <= i < |sizes|
      ensures least[i] <= sizes[i] <= longest[i]
    {
      AllAnswerable(notes, i);
      assert i >= 4 ==> sizes[i] == longest[4..][i - 4] == longest[i];
    }
  }

  /** The opening is a legal first pass. */
  lemma OpeningIsLegal(notes: seq<string>)
    requires |Batches(notes, NOTE_BATCH_BYTES)| >= 4
    requires forall i | 0 <= i < |LongestSizes(notes)| :: LongestSizes(notes)[i] > 0
    ensures LegalPass(notes, Fillers(Opening(notes)))
    ensures Sizes(Fillers(Opening(notes))) == Opening(notes)
  {
    var batches, sizes := Batches(notes, NOTE_BATCH_BYTES), Opening(notes);
    OpeningFits(notes);
    hide Bytes, Batches, Filler, OpeningSizes, Longest, Least, Legal;
    forall i | 0 <= i < |sizes|
      ensures Legal(batches[i], Fillers(sizes)[i]) && Bytes(Fillers(sizes)[i]) == sizes[i]
    {
      assert Least(batches[i]) == LeastSizes(notes)[i] && Longest(batches[i]) == LongestSizes(notes)[i];
      FillerIsLegal(batches[i], sizes[i]);
    }
  }

  /** The two pairs by their joined sizes. */
  lemma OpeningTotals(longest: seq<nat>, least: seq<nat>)
    requires |longest| == |least| >= 4 && forall i | 0 <= i < |least| :: 1 <= least[i] <= SHORTEST_BYTES
    ensures
      var sizes := OpeningSizes(longest, least);
      && REDUCED_BYTES + 1 <= Total(sizes[..2]) <= NOTE_BATCH_BYTES
      && REDUCED_BYTES + 1 <= Total(sizes[2..][..2]) <= NOTE_BATCH_BYTES
      && Total(sizes[..4]) > NOTE_BATCH_BYTES
      && (Total(sizes[..3]) <= NOTE_BATCH_BYTES ==> sizes[3] >= REDUCED_BYTES)
  {
    var sizes := OpeningSizes(longest, least);
    TwoTotal(sizes[..2]);
    TwoTotal(sizes[2..][..2]);
    assert sizes[..3][..2] == sizes[..2] && sizes[..4][..3] == sizes[..3];
  }

  lemma SizesTake(texts: seq<string>, a: nat, m: nat)
    requires a + m <= |texts|
    ensures Bytes(Join(texts[a..][..m])) == Total(Sizes(texts)[a..][..m])
  {
    hide Bytes, Join, Total;
    SizeIsTotal(texts[a..][..m]);
    assert Sizes(texts[a..][..m]) == Sizes(texts)[a..][..m];
  }

  lemma FirstFits(groups: seq<seq<string>>, pieces: seq<string>, capacity: nat)
    requires Batched(groups, pieces, capacity) && groups != []
    ensures Bytes(Join(groups[0])) <= capacity
  {
    hide Bytes, Join;
    assert Fits(groups, 0, capacity);
  }

  /** The first two groups of the opening hold its four replies, and nothing is lost in between. */
  lemma OpeningGroups(texts: seq<string>, groups: seq<seq<string>>, longest: seq<nat>, least: seq<nat>)
    requires |longest| == |least| >= 4 && forall i | 0 <= i < |least| :: 1 <= least[i] <= SHORTEST_BYTES
    requires Sizes(texts) == OpeningSizes(longest, least) && Batched(groups, texts, NOTE_BATCH_BYTES)
    ensures |groups| >= 2 && |groups[0]| + |groups[1]| >= 4
    ensures Bytes(Join(groups[0])) >= REDUCED_BYTES + 1 && Bytes(Join(groups[1])) >= REDUCED_BYTES
  {
    hide Bytes, Join, Total, Batched, OpeningSizes, Added;
    var sizes := Sizes(texts);
    OpeningTotals(longest, least);
    assert texts[0..] == texts && sizes[0..] == sizes;
    SizesTake(texts, 0, 2);
    SizesTake(texts, 0, 3);
    SizesTake(texts, 0, 4);
    SizesTake(texts, 2, 2);
    FirstHolds(groups, texts, NOTE_BATCH_BYTES, 2);
    BatchedTail(groups, texts, NOTE_BATCH_BYTES);
    var first, m := groups[0], |groups[0]|;
    FirstFits(groups, texts, NOTE_BATCH_BYTES);
    JoinPrefix(first, 2);
    assert first[..2] == texts[..2];
    if m >= 4 {
      assert first[..4] == texts[..4];
      JoinPrefix(first, 4);
    }
    SecondBatch(groups, texts, NOTE_BATCH_BYTES);
    if m == 3 {
      assert first == texts[..3];
      JoinHolds(groups[1], 0);
      assert groups[1][0] == texts[3] && Bytes(texts[3]) == sizes[3];
    } else {
      FirstHolds(groups[1..], texts[2..], NOTE_BATCH_BYTES, 2);
      BatchedTail(groups[1..], texts[2..], NOTE_BATCH_BYTES);
      JoinPrefix(groups[1], 2);
      assert groups[1][..2] == texts[2..][..2];
    }
  }

  lemma BehindTwo(groups: seq<seq<string>>, j: nat)
    requires 2 <= j <= |groups|
    ensures |Flatten(groups[..j])| >= |groups[0]| + |groups[1]|
  {
    assert groups[..j] == [groups[0]] + ([groups[1]] + groups[2..j]);
    FlattenCons(groups[0], [groups[1]] + groups[2..j]);
    FlattenCons(groups[1], groups[2..j]);
  }

  lemma SizeBehindOpening(longest: seq<nat>, least: seq<nat>, i: nat)
    requires |longest| == |least| >= 4 && 4 <= i < |longest|
    ensures OpeningSizes(longest, least)[i] == longest[i]
  {
    hide PairOf;
  }

  /** A batch behind the first two begins with one of the longest replies. */
  lemma LaterBatch(texts: seq<string>, groups: seq<seq<string>>, longest: seq<nat>, least: seq<nat>, low: nat, j: nat)
    requires |longest| == |least| >= 4 && Sizes(texts) == OpeningSizes(longest, least)
    requires Batched(groups, texts, NOTE_BATCH_BYTES) && 2 <= j < |groups| && |groups[0]| + |groups[1]| >= 4
    requires forall i | 4 <= i < |longest| :: longest[i] >= low
    ensures Bytes(Join(groups[j])) >= low
  {
    hide Bytes, Join, Flatten, OpeningSizes;
    assert Fits(groups, j, NOTE_BATCH_BYTES);
    PartPlace(groups, j);
    BehindTwo(groups, j);
    var i := |Flatten(groups[..j])|;
    SizeBehindOpening(longest, least, i);
    assert groups[j][0] == texts[i] && Bytes(texts[i]) == Sizes(texts)[i];
    JoinHolds(groups[j], 0);
  }

  /** Texts of the opening sizes: two full replies come first, and no later batch is short. */
  lemma OpeningBatches(texts: seq<string>, longest: seq<nat>, least: seq<nat>, low: nat)
    requires |longest| == |least| >= 4 && forall i | 0 <= i < |least| :: 1 <= least[i] <= SHORTEST_BYTES
    requires Sizes(texts) == OpeningSizes(longest, least) && AllFit(texts, NOTE_BATCH_BYTES)
    requires low <= REDUCED_BYTES && forall i | 4 <= i < |longest| :: longest[i] >= low
    ensures
      var batches := Batches(texts, NOTE_BATCH_BYTES);
      && |batches| >= 2 && Bytes(batches[0]) >= REDUCED_BYTES + 1 && Bytes(batches[1]) >= REDUCED_BYTES
      && forall j | 0 <= j < |batches| :: Bytes(batches[j]) >= low
  {
    WholePieces(texts, NOTE_BATCH_BYTES);
    GroupedIsBatched(texts, NOTE_BATCH_BYTES);
    var groups := Grouped(texts, NOTE_BATCH_BYTES);
    OpeningGroups(texts, groups, longest, least);
    hide Bytes, Join, Flatten, Grouped, PairOf, OpeningSizes, Batched;
    forall j | 2 <= j < |groups|
      ensures Bytes(Join(groups[j])) >= low
    {
      LaterBatch(texts, groups, longest, least, low, j);
    }
  }

  /** The levels of this course of replies: the opening, and then the longest replies. */
  function OpenedLevel(notes: seq<string>, k: nat): seq<string>
    requires |LongestSizes(notes)| >= 4
  {
    if k == 0 then notes else LongestLevel(Fillers(Opening(notes)), k - 1)
  }

  function Opened(notes: seq<string>): Replies
    requires |LongestSizes(notes)| >= 4
  {
    (level: nat, i: nat) =>
      var next := OpenedLevel(notes, level + 1);
      if i < |next| then next[i] else "a"
  }

  lemma OpenedReply(notes: seq<string>, k: nat, i: nat)
    requires |LongestSizes(notes)| >= 4 && i < |OpenedLevel(notes, k + 1)|
    ensures Opened(notes)(k, i) == OpenedLevel(notes, k + 1)[i]
  {
    hide OpenedLevel, LongestSizes;
  }

  lemma OpenedLength(notes: seq<string>, k: nat)
    requires |LongestSizes(notes)| >= 4
    ensures |OpenedLevel(notes, k + 1)| == |Batches(OpenedLevel(notes, k), NOTE_BATCH_BYTES)|
  {
    hide Batches, OpeningSizes, Filler, Longest;
  }

  lemma {:induction false} OpenedLevels(notes: seq<string>, k: nat)
    requires |LongestSizes(notes)| >= 4
    ensures Level(notes, Opened(notes), k) == OpenedLevel(notes, k)
  {
    hide OpeningSizes, Longest, LongestSizes, Batches, Opened, LongestLevel;
    if k > 0 {
      OpenedLevels(notes, k - 1);
      var now, next := OpenedLevel(notes, k - 1), OpenedLevel(notes, k);
      OpenedLength(notes, k - 1);
      forall i | 0 <= i < |next|
        ensures Opened(notes)(k - 1, i) == next[i]
      {
        OpenedReply(notes, k - 1, i);
      }
      assert Reduced(now, Opened(notes), k - 1) == next;
    }
  }

  /** Behind the opening two full replies are left, which stay wide for three hundred and fifty passes. */
  lemma OpeningIsWide(texts: seq<string>, longest: seq<nat>, least: seq<nat>, passes: nat)
    requires |longest| == |least| >= 4 && forall i | 0 <= i < |least| :: 1 <= least[i] <= SHORTEST_BYTES
    requires Sizes(texts) == OpeningSizes(longest, least) && AllFit(texts, NOTE_BATCH_BYTES)
    requires passes <= 350 && Lasting(longest, passes + 1)
    ensures !Ready(texts)
    ensures Wide(LongestSizes(texts), passes) && Lasting(LongestSizes(texts), passes)
  {
    OpeningBatches(texts, longest, least, passes + 3);
    BatchesJoin(texts, NOTE_BATCH_BYTES);
    var batches, sizes := Batches(texts, NOTE_BATCH_BYTES), LongestSizes(texts);
    SizeIsTotal(batches);
    PairTotal(Sizes(batches), 0);
    hide Bytes, Batches, Total, OpeningSizes, Join;
    forall k | 0 <= k < |sizes|
      ensures sizes[k] >= passes + 2
    {
      LongestIsClose(batches[k]);
      assert sizes[k] == Longest(batches[k]);
    }
    LongestIsClose(batches[0]);
    LongestIsClose(batches[1]);
    assert sizes[0] == Longest(batches[0]) && sizes[1] == Longest(batches[1]);
    assert WidePair(sizes, 0, passes);
  }

  lemma LevelsBegin(texts: seq<string>)
    ensures LongestLevel(texts, 0) == texts
    ensures LongestLevel(texts, 1) == Fillers(LongestSizes(texts))
  {
    hide LongestSizes, Fillers;
  }

  lemma OpenedFailsBehind(notes: seq<string>)
    requires |LongestSizes(notes)| >= 4 && notes != [] && LongestFrom(notes, Opened(notes), 1)
    requires Reached(notes, Opened(notes), 0, 1) && !Ready(Level(notes, Opened(notes), 1))
    requires |notes| >= 2 ==>
               var texts := Level(notes, Opened(notes), 2);
               && AllFit(texts, NOTE_BATCH_BYTES) && AllFit(texts, REDUCED_BYTES)
               && Wide(Sizes(texts), |notes| - 2) && Lasting(Sizes(texts), |notes| - 2)
    ensures Reduction(notes, Opened(notes), 1, |notes|).None?
  {
    hide Size, Level, Reduction, LongestPass, AllFit, LongestSizes, LongestLevel, OpeningSizes, Ready, Opened, Reached;
    hide Wide, Lasting;
    var reply := Opened(notes);
    ReductionTurn(notes, reply, 1, |notes|);
    if Shrinks(notes, reply, 1) {
      ReachedNext(notes, reply, 1);
      if |notes| == 1 {
        ReductionStops(notes, reply, 2);
      } else {
        NeverEnough(notes, reply, 2, |notes| - 1);
      }
    }
  }

  /** The passes that are left for the level behind the opening. */
  function Left(notes: seq<string>): nat {
    if |notes| < 2 then 0 else |notes| - 2
  }

  /** What the opening needs: at most 352 chapters, and batches that stay long enough to be answered. */
  ghost predicate CanOpen(notes: seq<string>) {
    && |LongestSizes(notes)| >= 4 && 1 <= |notes| <= 352
    && Lasting(LongestSizes(notes), Left(notes) + 1)
  }

  lemma LastingIsPositive(notes: seq<string>)
    requires CanOpen(notes)
    ensures forall i | 0 <= i < |LongestSizes(notes)| :: LongestSizes(notes)[i] > 0
  {
    hide LongestSizes;
  }

  lemma OpeningIsOpening(notes: seq<string>)
    requires CanOpen(notes)
    ensures Opening(notes) == OpeningSizes(LongestSizes(notes), LeastSizes(notes))
    ensures Left(notes) <= 350 && |LongestSizes(notes)| >= 4 && Lasting(LongestSizes(notes), Left(notes) + 1)
  {
    hide OpeningSizes, LongestSizes, LeastSizes, Lasting;
  }

  lemma OpeningFitsAll(notes: seq<string>)
    requires CanOpen(notes)
    ensures LegalPass(notes, Fillers(Opening(notes)))
    ensures Sizes(Fillers(Opening(notes))) == OpeningSizes(LongestSizes(notes), LeastSizes(notes))
    ensures AllFit(Fillers(Opening(notes)), NOTE_BATCH_BYTES)
  {
    LastingIsPositive(notes);
    OpeningIsOpening(notes);
    OpeningIsLegal(notes);
    hide LegalPass, AllFit, LongestSizes, LeastSizes, OpeningSizes, Fillers, Lasting, Opening;
    LegalPassFits(notes, Fillers(Opening(notes)));
  }

  /** The level behind the opening: legal, too long, and wide to the end. */
  lemma OpeningHolds(notes: seq<string>)
    requires CanOpen(notes)
    ensures LegalPass(notes, Fillers(Opening(notes)))
    ensures
      var texts := Fillers(Opening(notes));
      !Ready(texts) && Wide(LongestSizes(texts), Left(notes)) && Lasting(LongestSizes(texts), Left(notes))
  {
    hide *;
    OpeningFitsAll(notes);
    OpeningIsOpening(notes);
    OpeningIsWide(Fillers(Opening(notes)), LongestSizes(notes), LeastSizes(notes), Left(notes));
  }

  /** From the second level on the passes left are not enough. */
  lemma OpenedFails(notes: seq<string>)
    requires CanOpen(notes) && !Ready(notes) && LongestFrom(notes, Opened(notes), 1)
    ensures OverviewNotes(notes, Opened(notes)).None?
  {
    hide Size, Level, Reduction, LongestPass, LegalPass, AllFit, LongestSizes, LongestLevel, OpeningSizes, LongestFrom;
    hide Ready, Opened, Wide, Lasting;
    var reply := Opened(notes);
    var texts := Fillers(Opening(notes));
    OpeningHolds(notes);
    OpenedLevels(notes, 0);
    OpenedLevels(notes, 1);
    OpenedLevels(notes, 2);
    LevelsBegin(texts);
    StaysWide(texts, Left(notes), 1);
    ReductionTurn(notes, reply, 0, |notes| + 1);
    if Shrinks(notes, reply, 0) {
      ReachedNext(notes, reply, 0);
      OpenedFailsBehind(notes);
    }
  }

  lemma OpenedPass(notes: seq<string>, k: nat)
    requires CanOpen(notes) && 1 <= k <= |notes|
    ensures LongestPass(OpenedLevel(notes, k), OpenedLevel(notes, k + 1))
  {
    hide LongestPass, LegalPass, AllFit, LongestSizes, LongestLevel, OpeningSizes, Ready, Fillers, Wide;
    var texts := Fillers(Opening(notes));
    OpeningHolds(notes);
    LevelsBegin(texts);
    if k == 1 {
      FillersAreLegal(texts);
    } else {
      StaysWide(texts, Left(notes), k - 1);
    }
  }

  lemma OpenedBegins(notes: seq<string>)
    requires |LongestSizes(notes)| >= 4
    ensures OpenedLevel(notes, 0) == notes
    ensures OpenedLevel(notes, 1) == Fillers(Opening(notes))
  {
    hide LongestSizes, Fillers, OpeningSizes;
  }

  lemma OpenedLegally(notes: seq<string>, k: nat)
    requires CanOpen(notes) && k <= |notes|
    ensures k >= 1 ==> LongestPass(Level(notes, Opened(notes), k), Level(notes, Opened(notes), k + 1))
    ensures LegalPass(Level(notes, Opened(notes), k), Level(notes, Opened(notes), k + 1))
  {
    hide Level, OpenedLevel, LongestPass, LegalPass, LongestSizes, Opened, Fillers, Lasting;
    OpenedLevels(notes, k);
    OpenedLevels(notes, k + 1);
    if k == 0 {
      OpeningHolds(notes);
      OpenedBegins(notes);
    } else {
      OpenedPass(notes, k);
      LongestIsLegal(OpenedLevel(notes, k), OpenedLevel(notes, k + 1));
    }
  }

  lemma OpenedCanFail(notes: seq<string>)
    requires CanOpen(notes) && !Ready(notes)
    ensures AllLegal(notes, Opened(notes)) && OverviewNotes(notes, Opened(notes)).None?
  {
    hide Level, LongestPass, LegalPass, LongestSizes, Ready, Opened, Reached, Lasting, OverviewNotes;
    forall k: nat | Asked(notes, Opened(notes), k)
      ensures k >= 1 ==> LongestPass(Level(notes, Opened(notes), k), Level(notes, Opened(notes), k + 1))
      ensures LegalPass(Level(notes, Opened(notes), k), Level(notes, Opened(notes), k + 1))
    {
      OpenedLegally(notes, k);
    }
    OpenedFails(notes);
  }

  lemma CanBeOpened(notes: seq<string>)
    requires !Ready(notes) && |Batches(notes, NOTE_BATCH_BYTES)| >= 4 && |notes| <= 352
    requires forall i | 0 <= i < |Batches(notes, NOTE_BATCH_BYTES)| ::
               Bytes(Batches(notes, NOTE_BATCH_BYTES)[i]) >= |notes| + 3
    ensures CanOpen(notes)
  {
    NoNotesAreReady(notes);
    hide Bytes, Batches, Ready;
    var sizes := LongestSizes(notes);
    forall i | 0 <= i < |sizes|
      ensures sizes[i] >= |notes| + 2
    {
      LongestIsClose(Batches(notes, NOTE_BATCH_BYTES)[i]);
    }
  }

  /**
   * Four batches or more, however many: whatever the notes are, there are legal replies that never
   * lead to an overview. Every batch needs at least three bytes more than there are chapters, so
   * that it can be answered in every pass. Beyond 352 chapters there are more passes than
   * two full replies outlast; that range is open.
   */
  lemma FourBatchesCanFail(notes: seq<string>)
    requires !Ready(notes) && |Batches(notes, NOTE_BATCH_BYTES)| >= 4 && |notes| <= 352
    requires forall i | 0 <= i < |Batches(notes, NOTE_BATCH_BYTES)| ::
               Bytes(Batches(notes, NOTE_BATCH_BYTES)[i]) >= |notes| + 3
    ensures AllLegal(notes, Opened(notes)) && OverviewNotes(notes, Opened(notes)).None?
  {
    hide AllLegal, OverviewNotes, Opened, CanOpen, Batches, Bytes, LongestSizes;
    CanBeOpened(notes);
    OpenedCanFail(notes);
  }
}
