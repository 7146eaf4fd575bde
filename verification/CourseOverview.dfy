/**
 * The overview of a course (workers/gpu_agent/course_summary.py, the end of `compile_course`):
 * the notes of the chapters are reduced level by level until they fit one request.
 *
 * `reply(level, i)` stands for what the model writes for batch `i` of a level; it is arbitrary
 * but not empty. What the receiver enforces about replies (workers/model_worker/teaching.py,
 * `valid_part` and
 * `readable_synthesis`) is `Legal`; `OverviewLimits` shows where it is not enough.
 */
module CourseOverview {
  import opened Sequences
  import opened TextBatches
  import opened TeachingRequests
  import Repetition

  type Replies = (nat, nat) -> string

  function Size(notes: seq<string>): nat {
    Bytes(Join(notes))
  }

  predicate Ready(notes: seq<string>) {
    Size(notes) <= NOTE_BATCH_BYTES
  }

  /** One pass over the notes: a reply for every batch. */
  function Reduced(notes: seq<string>, reply: Replies, level: nat): (next: seq<string>)
    ensures |next| == |Batches(notes, NOTE_BATCH_BYTES)|
  {
    seq(|Batches(notes, NOTE_BATCH_BYTES)|, i requires 0 <= i => reply(level, i))
  }

  /** The notes after `k` passes, whatever the checks say. */
  function Level(notes: seq<string>, reply: Replies, k: nat): seq<string> {
    if k == 0 then notes else Reduced(Level(notes, reply, k - 1), reply, k - 1)
  }

  /** The loop, from `level` on, with `rounds` turns left: the notes that fit, or nothing. */
  function Reduction(notes: seq<string>, reply: Replies, level: nat, rounds: nat): Option<seq<string>>
    decreases rounds
  {
    var now := Level(notes, reply, level);
    if rounds == 0 then None
    else if Ready(now) then Some(now)
    else if Size(Reduced(now, reply, level)) >= Size(now) then None
    else Reduction(notes, reply, level + 1, rounds - 1)
  }

  /** What the overview is written from. */
  function OverviewNotes(notes: seq<string>, reply: Replies): Option<seq<string>> {
    if Ready(notes) then Some(notes) else Reduction(notes, reply, 0, |notes| + 1)
  }

  predicate Shrinks(notes: seq<string>, reply: Replies, j: nat) {
    !Ready(Level(notes, reply, j)) && Size(Level(notes, reply, j + 1)) < Size(Level(notes, reply, j))
  }

  /** Pass `k` is reached and was needed: every level before was too long and became shorter. */
  ghost predicate Reached(notes: seq<string>, reply: Replies, from: nat, k: nat) {
    forall j | from <= j < k :: Shrinks(notes, reply, j)
  }

  /** One turn of the loop, in terms of the levels. */
  lemma ReductionTurn(notes: seq<string>, reply: Replies, level: nat, rounds: nat)
    requires rounds > 0
    ensures Reduction(notes, reply, level, rounds)
         == if Ready(Level(notes, reply, level)) then Some(Level(notes, reply, level))
            else if Shrinks(notes, reply, level) then Reduction(notes, reply, level + 1, rounds - 1)
            else None
  {
    hide Ready, Size;
    assert Level(notes, reply, level + 1) == Reduced(Level(notes, reply, level), reply, level);
  }

  lemma ReductionStops(notes: seq<string>, reply: Replies, level: nat)
    ensures Reduction(notes, reply, level, 0).None?
  {
  }

  // What the receiver promises about a reply

  const REDUCED_CHARACTERS: nat := 700
  const LONG_SOURCE_CHARACTERS: nat := 240
  const SHORTEST_CHARACTERS: nat := 80
  const REDUCED_BYTES: nat := 2100

  /** What the receiver lets pass for the reduction of a batch: by its sizes, and as no repetition. */
  predicate Legal(batch: string, reply: string) {
    && reply != "" && |reply| <= REDUCED_CHARACTERS
    && Bytes(reply) <= REDUCED_BYTES && Bytes(reply) < Bytes(batch)
    && (|batch| >= LONG_SOURCE_CHARACTERS ==> |reply| >= SHORTEST_CHARACTERS)
    && !Repetition.Collapses(reply)
  }

  /** The receiver refuses a reduction that is empty, too long, no shorter than its source, too short, or repetitive. */
  lemma IllegalIff(batch: string, reply: string)
    ensures !Legal(batch, reply)
       <==> || reply == "" || 700 < |reply| || 2100 < Bytes(reply) || Bytes(batch) <= Bytes(reply)
            || (240 <= |batch| && |reply| < 80) || Repetition.Collapses(reply)
  {
    hide Bytes;
  }

  ghost predicate LegalPass(notes: seq<string>, next: seq<string>) {
    && |next| == |Batches(notes, NOTE_BATCH_BYTES)|
    && forall i | 0 <= i < |next| :: Legal(Batches(notes, NOTE_BATCH_BYTES)[i], next[i])
  }

  /** Pass `k` is made: everything before it was too long and became shorter. */
  ghost predicate Asked(notes: seq<string>, reply: Replies, k: nat) {
    k <= |notes| && Reached(notes, reply, 0, k) && !Ready(Level(notes, reply, k))
  }

  /** Every reply that is asked for is one that the receiver lets pass. */
  ghost predicate AllLegal(notes: seq<string>, reply: Replies) {
    forall k: nat | Asked(notes, reply, k) :: LegalPass(Level(notes, reply, k), Level(notes, reply, k + 1))
  }

  /** Sizes of texts, and the size of the texts joined. */
  function Sizes(texts: seq<string>): (sizes: seq<nat>)
    ensures |sizes| == |texts|
  {
    seq(|texts|, i requires 0 <= i < |texts| => Bytes(texts[i]))
  }

  function Total(sizes: seq<nat>): nat {
    if sizes == [] then 0
    else Total(sizes[..|sizes| - 1]) + sizes[|sizes| - 1] + if |sizes| > 1 then SEPARATOR_BYTES else 0
  }

  lemma NothingIsEmpty()
    ensures Size([]) == 0
  {
  }

  lemma {:induction false} SizeIsTotal(texts: seq<string>)
    ensures Size(texts) == Total(Sizes(texts))
  {
    hide Bytes, Join;
    if texts == [] {
      NothingIsEmpty();
    } else {
      var n := |texts| - 1;
      SizeIsTotal(texts[..n]);
      assert texts == texts[..n] + [texts[n]];
      assert Sizes(texts)[..n] == Sizes(texts[..n]);
      JoinSnoc(texts[..n], texts[n]);
    }
  }

  lemma {:induction false} TotalAtMost(less: seq<nat>, more: seq<nat>)
    requires |less| == |more| && forall i | 0 <= i < |less| :: less[i] <= more[i]
    ensures Total(less) <= Total(more)
  {
    if less != [] {
      var n := |less| - 1;
      TotalAtMost(less[..n], more[..n]);
    }
  }

  lemma {:induction false} TotalShrinks(less: seq<nat>, more: seq<nat>)
    requires |less| == |more| && forall i | 0 <= i < |less| :: less[i] < more[i]
    ensures Total(less) + |less| <= Total(more)
  {
    if less != [] {
      var n := |less| - 1;
      TotalShrinks(less[..n], more[..n]);
    }
  }

  /** The longest legal reply, in bytes; 0 when there is none. */
  function Longest(batch: string): nat {
    if Bytes(batch) > REDUCED_BYTES then REDUCED_BYTES else if batch == "" then 0 else Bytes(batch) - 1
  }

  lemma LegalIsShort(batch: string, reply: string)
    requires Legal(batch, reply)
    ensures Bytes(reply) <= Longest(batch) <= REDUCED_BYTES && reply != ""
  {
  }

  function LongestSizes(notes: seq<string>): (sizes: seq<nat>)
    ensures |sizes| == |Batches(notes, NOTE_BATCH_BYTES)|
    ensures forall i | 0 <= i < |sizes| :: sizes[i] <= REDUCED_BYTES
  {
    var batches := Batches(notes, NOTE_BATCH_BYTES);
    seq(|batches|, i requires 0 <= i < |batches| => Longest(batches[i]))
  }

  /** The most that one legal pass can leave. */
  function MostAfterPass(notes: seq<string>): nat {
    Total(LongestSizes(notes))
  }

  lemma LegalPassFits(notes: seq<string>, next: seq<string>)
    requires LegalPass(notes, next)
    ensures AllFit(next, REDUCED_BYTES) && AllFit(next, NOTE_BATCH_BYTES)
    ensures Size(next) <= MostAfterPass(notes)
  {
    hide Bytes, Batches, Total;
    SizeIsTotal(next);
    forall i | 0 <= i < |next|
      ensures next[i] != "" && Bytes(next[i]) <= REDUCED_BYTES && Sizes(next)[i] <= LongestSizes(notes)[i]
    {
      LegalIsShort(Batches(notes, NOTE_BATCH_BYTES)[i], next[i]);
    }
    TotalAtMost(Sizes(next), LongestSizes(notes));
  }

  /** Notes that need no cutting become shorter by at least one byte for every batch. */
  lemma PassShortens(notes: seq<string>, next: seq<string>)
    requires AllFit(notes, 3500) && LegalPass(notes, next)
    ensures Size(next) + |next| <= Size(notes)
  {
    var batches := Batches(notes, NOTE_BATCH_BYTES);
    BatchesJoin(notes, NOTE_BATCH_BYTES);
    hide Bytes, Batches, Total, AllFit;
    SizeIsTotal(next);
    SizeIsTotal(batches);
    forall i | 0 <= i < |next|
      ensures Sizes(next)[i] < Sizes(batches)[i]
    {
      assert Legal(batches[i], next[i]);
    }
    TotalShrinks(Sizes(next), Sizes(batches));
  }

  lemma MostIsLess(notes: seq<string>)
    requires AllFit(notes, NOTE_BATCH_BYTES)
    ensures MostAfterPass(notes) + |Batches(notes, NOTE_BATCH_BYTES)| <= Size(notes)
  {
    var batches := Batches(notes, NOTE_BATCH_BYTES);
    BatchesJoin(notes, NOTE_BATCH_BYTES);
    SizeIsTotal(batches);
    forall i | 0 <= i < |batches|
      ensures LongestSizes(notes)[i] < Sizes(batches)[i]
    {
      BatchesFit(notes, NOTE_BATCH_BYTES, i);
    }
    hide Bytes, Batches, Total, AllFit;
    TotalShrinks(LongestSizes(notes), Sizes(batches));
  }

  lemma OneIsReady(texts: seq<string>)
    requires forall i | 0 <= i < |texts| :: Bytes(texts[i]) <= NOTE_BATCH_BYTES
    ensures |texts| < 2 ==> Ready(texts)
  {
  }

  /** Notes that are too long together make two batches or more. */
  lemma LongNeedsTwo(notes: seq<string>)
    requires AllFit(notes, NOTE_BATCH_BYTES) && !Ready(notes)
    ensures |Batches(notes, NOTE_BATCH_BYTES)| >= 2
  {
    var batches := Batches(notes, NOTE_BATCH_BYTES);
    BatchesJoin(notes, NOTE_BATCH_BYTES);
    hide Join, Bytes;
    forall i | 0 <= i < |batches|
      ensures Bytes(batches[i]) <= NOTE_BATCH_BYTES
    {
      BatchesFit(notes, NOTE_BATCH_BYTES, i);
    }
    OneIsReady(batches);
  }

  // When every legal course of replies leads to an overview

  /**
   * A condition on the notes alone: they fit, or one pass leaves at most 3500 bytes and two more for
   * each of the other passes, and less than there was.
   */
  predicate Affordable(notes: seq<string>) {
    || Ready(notes)
    || (MostAfterPass(notes) < Size(notes) && MostAfterPass(notes) <= NOTE_BATCH_BYTES + 2 * (|notes| - 1))
  }

  lemma ReachedNext(notes: seq<string>, reply: Replies, k: nat)
    requires Reached(notes, reply, 0, k) && Shrinks(notes, reply, k)
    ensures Reached(notes, reply, 0, k + 1)
  {
    hide Shrinks;
  }

  lemma NextLength(notes: seq<string>, next: seq<string>)
    requires LegalPass(notes, next)
    ensures |next| == |Batches(notes, NOTE_BATCH_BYTES)|
  {
  }

  /** Two bytes for every pass that is left are enough. */
  lemma {:induction false} EnoughPasses(notes: seq<string>, reply: Replies, level: nat, rounds: nat)
    requires AllLegal(notes, reply) && Reached(notes, reply, 0, level)
    requires rounds > 0 && level + rounds == |notes| + 1
    requires AllFit(Level(notes, reply, level), NOTE_BATCH_BYTES)
    requires Size(Level(notes, reply, level)) <= NOTE_BATCH_BYTES + 2 * (rounds - 1)
    ensures Reduction(notes, reply, level, rounds).Some?
    decreases rounds
  {
    hide Size, Level, Reduction, LegalPass, AllFit, Reached;
    var now, next := Level(notes, reply, level), Level(notes, reply, level + 1);
    ReductionTurn(notes, reply, level, rounds);
    if !Ready(now) {
      assert Asked(notes, reply, level);
      PassShortens(now, next);
      LongNeedsTwo(now);
      LegalPassFits(now, next);
      assert |next| >= 2 by { assert LegalPass(now, next); NextLength(now, next); }
      ReachedNext(notes, reply, level);
      EnoughPasses(notes, reply, level + 1, rounds - 1);
    }
  }

  lemma NoNotesAreReady(notes: seq<string>)
    ensures notes == [] ==> Ready(notes)
  {
  }

  lemma FirstLevel(notes: seq<string>, reply: Replies)
    ensures Level(notes, reply, 0) == notes
  {
  }

  /** Whatever the legal replies are, the overview is written. */
  lemma OverviewIsWritten(notes: seq<string>, reply: Replies)
    requires AllLegal(notes, reply) && Affordable(notes)
    ensures OverviewNotes(notes, reply).Some?
  {
    hide Size, Level, Reduction, LegalPass, AllFit, MostAfterPass;
    if !Ready(notes) {
      var next := Level(notes, reply, 1);
      assert notes != [] by { NoNotesAreReady(notes); }
      FirstLevel(notes, reply);
      assert Asked(notes, reply, 0);
      LegalPassFits(notes, next);
      ReductionTurn(notes, reply, 0, |notes| + 1);
      ReachedNext(notes, reply, 0);
      EnoughPasses(notes, reply, 1, |notes|);
    }
  }

  /** In particular when no note exceeds 3500 bytes, and all of them 3500 and two for each note. */
  lemma ShortNotesAreWritten(notes: seq<string>, reply: Replies)
    requires AllFit(notes, 3500) && AllLegal(notes, reply)
    requires Size(notes) <= 3500 + 2 * |notes|
    ensures Affordable(notes) && OverviewNotes(notes, reply).Some?
  {
    hide Size, AllFit, MostAfterPass, OverviewNotes, AllLegal, Batches;
    if !Ready(notes) {
      MostIsLess(notes);
      LongNeedsTwo(notes);
    }
    OverviewIsWritten(notes, reply);
  }

  lemma BatchIsAccepted(notes: seq<string>, i: nat)
    requires i < |Batches(notes, NOTE_BATCH_BYTES)|
    ensures Accepted(Batches(notes, NOTE_BATCH_BYTES)[i], [], [])
  {
    BatchesFit(notes, NOTE_BATCH_BYTES, i);
  }

  lemma SomeBatch(notes: seq<string>)
    requires notes != [] && forall k | 0 <= k < |notes| :: notes[k] != ""
    ensures Batches(notes, NOTE_BATCH_BYTES) != []
  {
    var pieces := AllPieces(notes, NOTE_BATCH_BYTES);
    AllPiecesJoin(notes, NOTE_BATCH_BYTES);
    FlattenCons(notes[0], notes[1..]);
    assert notes == [notes[0]] + notes[1..];
    assert Flatten(notes) != "";
    GroupedIsBatched(pieces, NOTE_BATCH_BYTES);
    if pieces == [] {
      FlattenNone<char>();
    }
  }

  /** One pass, with the requests it makes. */
  method ReduceOnce(notes: seq<string>, reply: Replies, level: nat) returns (next: seq<string>, requests: seq<string>)
    requires notes != [] && (forall k | 0 <= k < |notes| :: notes[k] != "")
    requires forall level, i :: reply(level, i) != ""
    ensures next == Reduced(notes, reply, level)
    ensures next != [] && (forall k | 0 <= k < |next| :: next[k] != "")
    ensures requests == Batches(notes, 3500)
    ensures forall r | r in requests :: Accepted(r, [], []) && Bytes(r) <= 3500
  {
    hide Accepted, Bytes, Join, Batches;
    var batches := NoteBatches(notes, NOTE_BATCH_BYTES);
    next, requests := [], [];
    for i := 0 to |batches|
      invariant |next| == i && forall k | 0 <= k < i :: next[k] == reply(level, k)
      invariant requests == batches[..i]
      invariant forall r | r in requests :: Accepted(r, [], []) && Bytes(r) <= NOTE_BATCH_BYTES
    {
      BatchIsAccepted(notes, i);
      BatchesFit(notes, NOTE_BATCH_BYTES, i);
      requests := requests + [batches[i]];
      next := next + [reply(level, i)];
    }
    SomeBatch(notes);
  }

  lemma JoinedIsAccepted(notes: seq<string>)
    requires notes != [] && notes[0] != "" && Bytes(Join(notes)) <= NOTE_BATCH_BYTES
    ensures Accepted(Join(notes), [], [])
  {
    JoinNonEmpty(notes);
  }

  /** The batches of pass `k` are among the requests. */
  ghost predicate SentAll(notes: seq<string>, reply: Replies, k: nat, requests: seq<string>) {
    forall batch | batch in Batches(Level(notes, reply, k), 3500) :: batch in requests
  }

  lemma SentMore(notes: seq<string>, reply: Replies, k: nat, requests: seq<string>, more: seq<string>)
    ensures SentAll(notes, reply, k, requests) ==> SentAll(notes, reply, k, requests + more)
    ensures more == Batches(Level(notes, reply, k), 3500) ==> SentAll(notes, reply, k, requests + more)
  {
    hide Batches, Level;
  }

  lemma AskedInTime(notes: seq<string>, reply: Replies, k: nat)
    requires Asked(notes, reply, k)
    ensures k <= |notes|
  {
  }

  lemma NothingAsked(notes: seq<string>, reply: Replies, k: nat)
    requires Ready(notes)
    ensures !Asked(notes, reply, k)
  {
    FirstLevel(notes, reply);
    hide Ready, Size, Level;
    assert k > 0 && Reached(notes, reply, 0, k) ==> Shrinks(notes, reply, 0);
  }

  /** Behind a level that fits or did not become shorter no pass is asked for. */
  lemma NothingAskedBehind(notes: seq<string>, reply: Replies, level: nat, k: nat)
    requires Asked(notes, reply, k)
    ensures Ready(Level(notes, reply, level)) ==> k < level
    ensures Size(Level(notes, reply, level + 1)) >= Size(Level(notes, reply, level)) ==> k <= level
  {
    hide Ready, Size, Level;
    if level < k {
      assert Shrinks(notes, reply, level);
    }
  }

  /**
   * The overview and every request made for it; the last request is the overview itself. All
   * requests are within the receiver's limits, and none is longer than 3500 bytes.
   */
  method WriteOverview(notes: seq<string>, reply: Replies) returns (result: Option<seq<string>>, requests: seq<string>)
    requires notes != [] && (forall k | 0 <= k < |notes| :: notes[k] != "")
    requires forall level, i :: reply(level, i) != ""
    ensures result == OverviewNotes(notes, reply)
    ensures forall r | r in requests :: Accepted(r, [], []) && Bytes(r) <= 3500
    ensures forall k: nat | Asked(notes, reply, k) :: SentAll(notes, reply, k, requests)
    ensures result.Some? ==> requests != [] && requests[|requests| - 1] == Join(result.value)
  {
    hide Accepted, Bytes, Join, Batches, Reduced, SentAll, Asked;
    requests := [];
    FirstLevel(notes, reply);
    if Bytes(Join(notes)) <= NOTE_BATCH_BYTES {
      JoinedIsAccepted(notes);
      forall k: nat
        ensures !Asked(notes, reply, k)
      {
        NothingAsked(notes, reply, k);
      }
      return Some(notes), [Join(notes)];
    }
    var remaining := notes;
    var round := 0;
    while round < |notes| + 1
      invariant round <= |notes| + 1
      invariant remaining == Level(notes, reply, round) && remaining != []
      invariant forall k | 0 <= k < |remaining| :: remaining[k] != ""
      invariant Reduction(notes, reply, 0, |notes| + 1) == Reduction(notes, reply, round, |notes| + 1 - round)
      invariant forall r | r in requests :: Accepted(r, [], []) && Bytes(r) <= NOTE_BATCH_BYTES
      invariant forall k: nat | k < round :: SentAll(notes, reply, k, requests)
    {
      if Bytes(Join(remaining)) <= NOTE_BATCH_BYTES {
        JoinedIsAccepted(remaining);
        forall k: nat | Asked(notes, reply, k)
          ensures SentAll(notes, reply, k, requests + [Join(remaining)])
        {
          NothingAskedBehind(notes, reply, round, k);
          SentMore(notes, reply, k, requests, [Join(remaining)]);
        }
        return Some(remaining), requests + [Join(remaining)];
      }
      var next, sent := ReduceOnce(remaining, reply, round);
      forall k: nat | k <= round
        ensures SentAll(notes, reply, k, requests + sent)
      {
        SentMore(notes, reply, k, requests, sent);
      }
      requests := requests + sent;
      forall k: nat | Asked(notes, reply, k)
        ensures k <= |notes|
        ensures Bytes(Join(next)) >= Bytes(Join(remaining)) ==> k <= round
      {
        AskedInTime(notes, reply, k);
        NothingAskedBehind(notes, reply, round, k);
      }
      if Bytes(Join(next)) >= Bytes(Join(remaining)) { return None, requests; }
      remaining := next;
      round := round + 1;
    }
    forall k: nat | Asked(notes, reply, k)
      ensures SentAll(notes, reply, k, requests)
    {
      AskedInTime(notes, reply, k);
    }
    return None, requests;
  }
}
