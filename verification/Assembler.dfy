/**
 * The audio tables of one source and the incremental assembler that works on them
 * (crates/core-server/src/audio.rs, `persist_frame` and `assemble_source`, over the
 * statements of crates/event-store/src/lib.rs).
 *
 * Chunks may arrive in any order and the assembler may run at any time. The class says which
 * windows exist afterwards as a function of the stored chunks alone: the one-shot cut of the
 * contiguous recording. Here a run is not interrupted; `AudioProtocol` interleaves runs.
 */
module Assembler {
  import opened Sequences
  import opened FrameCodec
  import opened Segmenter
  import opened Windows

  // Receiving frames

  datatype Receipt =
    | Stored(sequence: nat)
    | Duplicate(sequence: nat)
    | Refused(reason: FrameError)
    | Conflict(existing: Frame)

  /** What Core answers to a frame; only the first two answers are acknowledgements. */
  function Receive(chunks: map<nat, Frame>, message: seq<Byte>): Receipt {
    match ParseFrame(message)
    case Err(reason) => Refused(reason)
    case Ok(frame) =>
      if frame.sequence !in chunks then Stored(frame.sequence)
      else if chunks[frame.sequence] == frame then Duplicate(frame.sequence)
      else Conflict(chunks[frame.sequence])
  }

  /** The chunk table after a frame: the first insert of a sequence wins for ever. */
  function AfterReceive(chunks: map<nat, Frame>, message: seq<Byte>): (after: map<nat, Frame>)
    ensures forall n | n in chunks :: n in after && after[n] == chunks[n]
  {
    match Receive(chunks, message)
    case Stored(sequence) => chunks[sequence := ParseFrame(message).value]
    case _ => chunks
  }

  /**
   * A frame is acknowledged exactly when afterwards its content is what is stored under its number;
   * nothing that was stored is replaced, and a frame with other content is refused.
   */
  lemma AcknowledgedIff(chunks: map<nat, Frame>, message: seq<Byte>)
    ensures
      var receipt, after := Receive(chunks, message), AfterReceive(chunks, message);
      && (receipt.Stored? || receipt.Duplicate?
          <==> && ParseFrame(message).Ok?
               && var frame := ParseFrame(message).value;
                  frame.sequence in after && after[frame.sequence] == frame)
      && (receipt.Stored? <==> after != chunks)
      && (forall n | n in chunks :: n in after && after[n] == chunks[n])
      && (receipt.Conflict? ==>
            && ParseFrame(message).Ok? && ParseFrame(message).value.sequence in chunks
            && receipt.existing == chunks[ParseFrame(message).value.sequence] != ParseFrame(message).value)
      && (ParseFrame(message).Err? <==> receipt.Refused?)
  {
  }

  /** Two frames that claim one sequence, still free, with different content. */
  ghost predicate Race(chunks: map<nat, Frame>, a: seq<Byte>, b: seq<Byte>) {
    && ParseFrame(a).Ok? && ParseFrame(b).Ok?
    && ParseFrame(a) != ParseFrame(b)
    && ParseFrame(a).value.sequence == ParseFrame(b).value.sequence
    && ParseFrame(a).value.sequence !in chunks
  }

  /** The order in which frames arrive matters only when two of them race for one sequence. */
  lemma ReceiveCommutesIff(chunks: map<nat, Frame>, a: seq<Byte>, b: seq<Byte>)
    ensures AfterReceive(AfterReceive(chunks, a), b) == AfterReceive(AfterReceive(chunks, b), a)
       <==> !Race(chunks, a, b)
  {
    if Race(chunks, a, b) {
      var n := ParseFrame(a).value.sequence;
      assert AfterReceive(AfterReceive(chunks, a), b)[n] == ParseFrame(a).value;
      assert AfterReceive(AfterReceive(chunks, b), a)[n] == ParseFrame(b).value;
    }
  }

  ghost predicate ChunkTable(chunks: map<nat, Frame>) {
    forall n | n in chunks :: n >= 1 && chunks[n].sequence == n
  }

  // The contiguous recording

  /** The stored chunks `n`, `n + 1`, and so on up to the first hole. */
  function RunFrom(chunks: map<nat, Frame>, n: nat): seq<Frame>
    decreases |chunks|
  {
    if n in chunks then
      assert (chunks - {n}).Keys == chunks.Keys - {n};
      [chunks[n]] + RunFrom(chunks - {n}, n + 1)
    else []
  }

  lemma {:induction false} RunHolds(chunks: map<nat, Frame>, n: nat, i: nat)
    requires i < |RunFrom(chunks, n)|
    ensures n + i in chunks && RunFrom(chunks, n)[i] == chunks[n + i]
    decreases i
  {
    if i > 0 {
      RunHolds(chunks - {n}, n + 1, i - 1);
    }
  }

  lemma {:induction false} RunEndsAtHole(chunks: map<nat, Frame>, n: nat)
    ensures n + |RunFrom(chunks, n)| !in chunks
    decreases |chunks|
  {
    if n in chunks {
      assert (chunks - {n}).Keys == chunks.Keys - {n};
      RunEndsAtHole(chunks - {n}, n + 1);
    }
  }

  lemma RunNumbered(chunks: map<nat, Frame>)
    requires ChunkTable(chunks)
    ensures Numbered(RunFrom(chunks, 1), 1)
  {
    var run := RunFrom(chunks, 1);
    forall i | 0 <= i < |run|
      ensures run[i].sequence == 1 + i
    {
      RunHolds(chunks, 1, i);
    }
  }

  /** A new chunk only adds to the end of the run. */
  lemma {:induction false} RunGrows(chunks: map<nat, Frame>, n: nat, k: nat, chunk: Frame)
    requires k !in chunks
    ensures RunFrom(chunks, n) <= RunFrom(chunks[k := chunk], n)
    decreases |chunks|
  {
    if n in chunks {
      assert (chunks - {n}).Keys == chunks.Keys - {n};
      assert chunks[k := chunk] - {n} == (chunks - {n})[k := chunk];
      RunGrows(chunks - {n}, n + 1, k, chunk);
    }
  }

  ghost predicate Ascends(list: seq<Frame>, i: nat)
    requires i < |list|
  {
    i > 0 ==> list[i - 1].sequence < list[i].sequence
  }

  /** `list` is every stored chunk above the cursor in increasing order of sequence. */
  ghost predicate Lists(list: seq<Frame>, chunks: map<nat, Frame>, cursor: nat) {
    && (forall i | 0 <= i < |list| :: cursor < list[i].sequence)
    && (forall i | 0 <= i < |list| :: list[i].sequence in chunks && chunks[list[i].sequence] == list[i])
    && (forall i {:trigger Ascends(list, i)} | 0 <= i < |list| :: Ascends(list, i))
    && (forall n | n in chunks && n > cursor :: chunks[n] in list)
  }

  lemma {:induction false} ListAscends(list: seq<Frame>, i: nat)
    requires i < |list|
    requires forall k {:trigger Ascends(list, k)} | 0 <= k < |list| :: Ascends(list, k)
    ensures list[0].sequence + i <= list[i].sequence
  {
    assert Ascends(list, i);
    if i > 0 {
      ListAscends(list, i - 1);
    }
  }

  /** The store's list starts with the recording above the cursor. */
  lemma {:induction false} ListFollowsRun(list: seq<Frame>, chunks: map<nat, Frame>, cursor: nat, i: nat)
    requires ChunkTable(chunks) && Lists(list, chunks, cursor) && cursor + i < |RunFrom(chunks, 1)|
    ensures i < |list| && list[i] == RunFrom(chunks, 1)[cursor + i]
  {
    var run := RunFrom(chunks, 1);
    RunHolds(chunks, 1, cursor + i);
    var j :| 0 <= j < |list| && list[j] == run[cursor + i];
    ListAscends(list, j);
    if j < i {
      ListFollowsRun(list, chunks, cursor, j);
      RunHolds(chunks, 1, cursor + j);
    }
  }

  /** Every stored chunk belongs to the recording; none waits behind a hole. */
  ghost predicate NoHole(chunks: map<nat, Frame>) {
    forall n | n in chunks :: n <= |RunFrom(chunks, 1)|
  }

  lemma ListStart(list: seq<Frame>, chunks: map<nat, Frame>, cursor: nat)
    requires ChunkTable(chunks) && Lists(list, chunks, cursor) && cursor <= |RunFrom(chunks, 1)|
    ensures
      var run := RunFrom(chunks, 1);
      && |run| - cursor <= |list|
      && list[..|run| - cursor] == run[cursor..]
  {
    var run := RunFrom(chunks, 1);
    if cursor < |run| {
      ListFollowsRun(list, chunks, cursor, |run| - cursor - 1);
    }
    forall i | 0 <= i < |run| - cursor
      ensures list[i] == run[cursor + i]
    {
      ListFollowsRun(list, chunks, cursor, i);
    }
  }

  /** Behind the recording the list shows a hole, or ends. */
  lemma ListBreaks(list: seq<Frame>, chunks: map<nat, Frame>, cursor: nat)
    requires ChunkTable(chunks) && Lists(list, chunks, cursor) && cursor <= |RunFrom(chunks, 1)|
    ensures
      var n := |RunFrom(chunks, 1)| - cursor;
      n <= |list| && (n < |list| ==> list[n].sequence != |RunFrom(chunks, 1)| + 1 && !NoHole(chunks))
  {
    var n := |RunFrom(chunks, 1)| - cursor;
    ListStart(list, chunks, cursor);
    RunEndsAtHole(chunks, 1);
    if n < |list| {
      ListAscends(list, n);
      assert list[n].sequence in chunks;
    }
  }

  /** The list ends with the recording exactly when no chunk waits behind a hole. */
  lemma ListEndsIff(list: seq<Frame>, chunks: map<nat, Frame>, cursor: nat)
    requires ChunkTable(chunks) && Lists(list, chunks, cursor) && cursor <= |RunFrom(chunks, 1)|
    ensures |list| == |RunFrom(chunks, 1)| - cursor <==> NoHole(chunks)
  {
    ListBreaks(list, chunks, cursor);
    if |list| == |RunFrom(chunks, 1)| - cursor {
      forall k | k in chunks
        ensures k <= |RunFrom(chunks, 1)|
      {
        if k > |RunFrom(chunks, 1)| {
          var j :| 0 <= j < |list| && list[j] == chunks[k];
          ListFollowsRun(list, chunks, cursor, j);
          RunHolds(chunks, 1, cursor + j);
        }
      }
    }
  }

  // What the tables hold

  /** The groups assembled so far: those up to the last sealed tail, and those after it. */
  ghost function Groups(rule: Rule<Frame>, run: seq<Frame>, cursor: nat, settled: seq<seq<Frame>>): seq<seq<Frame>>
    requires |Flatten(settled)| <= cursor && |Flatten(settled)| <= |run|
  {
    var base := |Flatten(settled)|;
    settled + GroupsTo(rule, run[base..], cursor - base)
  }

  /** Cursor and windows are those of a one-shot cut of the recording, begun anew after each sealed tail. */
  ghost predicate Assembled(rule: Rule<Frame>, run: seq<Frame>, cursor: nat, settled: seq<seq<Frame>>,
                            windows: seq<Window>)
  {
    var base := |Flatten(settled)|;
    && base <= cursor <= |run|
    && Flatten(settled) == run[..base]
    && IsBoundary(rule, run[base..], cursor - base, false)
    && NoneEmpty(Groups(rule, run, cursor, settled))
    && windows == WindowsOf(Groups(rule, run, cursor, settled))
  }

  /** `INSERT OR IGNORE` into the window table, whose key holds the two bounds. */
  function WithWindow(windows: seq<Window>, window: Window): seq<Window> {
    if exists other | other in windows :: other.first == window.first && other.last == window.last
    then windows else windows + [window]
  }

  lemma WindowsOfSnoc(groups: seq<seq<Frame>>, group: seq<Frame>)
    requires NoneEmpty(groups) && group != []
    ensures NoneEmpty(groups + [group])
    ensures WindowsOf(groups + [group]) == WindowsOf(groups) + [WindowOf(group)]
  {
  }

  lemma AssembledJoin(rule: Rule<Frame>, run: seq<Frame>, cursor: nat, settled: seq<seq<Frame>>, windows: seq<Window>)
    requires Assembled(rule, run, cursor, settled, windows)
    ensures Flatten(Groups(rule, run, cursor, settled)) == run[..cursor]
  {
    var base := |Flatten(settled)|;
    GroupsJoin(rule, run[base..], cursor - base, false);
    FlattenAppend(settled, GroupsTo(rule, run[base..], cursor - base));
    assert run[..cursor] == run[..base] + run[base..][..cursor - base];
  }

  /** No gap, overlap or reorder: the windows hold the recording up to the cursor, in order. */
  lemma WindowsHoldRecording(rule: Rule<Frame>, run: seq<Frame>, cursor: nat, settled: seq<seq<Frame>>,
                             windows: seq<Window>)
    requires Assembled(rule, run, cursor, settled, windows) && Numbered(run, 1)
    ensures WindowPcm(windows) == Pcm(run[..cursor])
    ensures Consecutive(windows, 1)
    ensures forall window | window in windows :: Holds(window, run)
  {
    AssembledJoin(rule, run, cursor, settled, windows);
    WindowsKeepPcm(Groups(rule, run, cursor, settled));
    WindowsAreConsecutive(Groups(rule, run, cursor, settled), 1);
    forall window | window in windows
      ensures Holds(window, run)
    {
      WindowsHold(Groups(rule, run, cursor, settled), window);
      HoldsMore(window, run, cursor);
    }
  }

  lemma AssembledGrows(rule: Rule<Frame>, run: seq<Frame>, more: seq<Frame>, cursor: nat, settled: seq<seq<Frame>>,
                       windows: seq<Window>)
    requires Assembled(rule, run, cursor, settled, windows) && run <= more
    ensures Assembled(rule, more, cursor, settled, windows)
  {
    var base := |Flatten(settled)|;
    var added := more[|run|..];
    assert more[base..] == run[base..] + added;
    BoundaryExtends(rule, run[base..], added, cursor - base);
  }

  /** A window that ends beyond the recorded groups is new. */
  lemma WindowIsNew(done: seq<seq<Frame>>, windows: seq<Window>, window: Window)
    requires NoneEmpty(done) && windows == WindowsOf(done) && Numbered(Flatten(done), 1)
    requires window.last > |Flatten(done)|
    ensures WithWindow(windows, window) == windows + [window]
  {
    forall other | other in windows
      ensures other.last <= |Flatten(done)|
    {
      WindowEndsWithin(done, other);
    }
  }

  /** The groups that a run starting here is to record, with `tail` the recording above the cursor. */
  ghost function Remaining(rule: Rule<Frame>, tail: seq<Frame>, seal: bool): seq<seq<Frame>> {
    if seal then Sealed(rule, tail) else Closed(rule, tail)
  }

  /** What a run leaves behind, with `rest` the recording behind the last sealed tail. */
  ghost function Outcome(rule: Rule<Frame>, settled: seq<seq<Frame>>, rest: seq<Frame>, seal: bool): seq<seq<Frame>> {
    settled + Remaining(rule, rest, seal)
  }

  /** A run that has recorded `done` and is on its way to `goal`. */
  ghost predicate Progress(rule: Rule<Frame>, run: seq<Frame>, cursor: nat, windows: seq<Window>,
                           done: seq<seq<Frame>>, goal: seq<seq<Frame>>, seal: bool)
  {
    && cursor <= |run|
    && NoneEmpty(done) && windows == WindowsOf(done)
    && Flatten(done) == run[..cursor]
    && done + Remaining(rule, run[cursor..], seal) == goal
  }

  lemma {:induction false} BoundarySplits(rule: Rule<Frame>, chunks: seq<Frame>, p: nat)
    requires IsBoundary(rule, chunks, p, false) && p <= |chunks|
    ensures Closed(rule, chunks) == GroupsTo(rule, chunks, p) + Closed(rule, chunks[p..])
    ensures Rest(rule, chunks) == Rest(rule, chunks[p..])
    decreases |chunks|
  {
    if p == 0 {
      assert chunks[0..] == chunks;
    } else {
      var end := FirstCut(rule, chunks).value;
      assert chunks[end..][p - end..] == chunks[p..];
      BoundarySplits(rule, chunks[end..], p - end);
      JoinAssociates([chunks[..end]], GroupsTo(rule, chunks[end..], p - end), Closed(rule, chunks[p..]));
    }
  }

  /** The complete groups end at a boundary. */
  lemma {:induction false} ClosedEndsAtBoundary(rule: Rule<Frame>, chunks: seq<Frame>)
    ensures IsBoundary(rule, chunks, |Flatten(Closed(rule, chunks))|, false)
    ensures GroupsTo(rule, chunks, |Flatten(Closed(rule, chunks))|) == Closed(rule, chunks)
    decreases |chunks|
  {
    match FirstCut(rule, chunks)
    case None =>
    case Some(end) =>
      ClosedEndsAtBoundary(rule, chunks[end..]);
      FlattenCons(chunks[..end], Closed(rule, chunks[end..]));
  }

  lemma RunStarts(rule: Rule<Frame>, run: seq<Frame>, cursor: nat, settled: seq<seq<Frame>>, windows: seq<Window>,
                  seal: bool)
    requires Assembled(rule, run, cursor, settled, windows)
    ensures Progress(rule, run, cursor, windows, Groups(rule, run, cursor, settled),
                     Outcome(rule, settled, run[|Flatten(settled)|..], seal), seal)
  {
    var base := |Flatten(settled)|;
    AssembledJoin(rule, run, cursor, settled, windows);
    BoundarySplits(rule, run[base..], cursor - base);
    assert run[base..][cursor - base..] == run[cursor..];
    JoinAssociates(settled, GroupsTo(rule, run[base..], cursor - base), Remaining(rule, run[cursor..], seal));
    if seal && Rest(rule, run[cursor..]) != [] {
      var tail := [Rest(rule, run[cursor..])];
      JoinAssociates(GroupsTo(rule, run[base..], cursor - base), Closed(rule, run[cursor..]), tail);
    }
  }

  lemma RemainingStep(rule: Rule<Frame>, tail: seq<Frame>, seal: bool)
    requires tail != [] && (FirstCut(rule, tail).Some? || seal)
    ensures
      var k := FirstEnd(rule, tail);
      Remaining(rule, tail, seal) == [tail[..k]] + Remaining(rule, tail[k..], seal)
  {
    FirstSealed(rule, tail);
  }

  lemma AdvanceIn<T>(run: seq<T>, cursor: nat, k: nat)
    requires cursor + k <= |run|
    ensures run[cursor..][k..] == run[cursor + k..]
    ensures run[..cursor + k] == run[..cursor] + run[cursor..][..k]
  {
  }

  lemma GroupIsNumbered(run: seq<Frame>, cursor: nat, k: nat)
    requires Numbered(run, 1) && 0 < k && cursor + k <= |run|
    ensures Numbered(run[..cursor], 1)
    ensures run[cursor..][..k] != [] && WindowOf(run[cursor..][..k]).last == cursor + k
  {
  }

  /** One turn of the outer loop that records a window. */
  lemma RunTurns(rule: Rule<Frame>, run: seq<Frame>, cursor: nat, windows: seq<Window>,
                 done: seq<seq<Frame>>, goal: seq<seq<Frame>>, seal: bool)
    requires Progress(rule, run, cursor, windows, done, goal, seal) && Numbered(run, 1)
    requires cursor < |run| && (FirstCut(rule, run[cursor..]).Some? || seal)
    ensures
      var k := FirstEnd(rule, run[cursor..]);
      var group := run[cursor..][..k];
      && WithWindow(windows, WindowOf(group)) == windows + [WindowOf(group)]
      && Progress(rule, run, cursor + k, windows + [WindowOf(group)], done + [group], goal, seal)
  {
    hide WindowsOf, WithWindow, Flatten, Remaining, FirstEnd, FirstCut, WindowOf, Numbered, NoneEmpty;
    var k := FirstEnd(rule, run[cursor..]);
    var group := run[cursor..][..k];
    RemainingStep(rule, run[cursor..], seal);
    AdvanceIn(run, cursor, k);
    GroupIsNumbered(run, cursor, k);
    JoinAssociates(done, [group], Remaining(rule, run[cursor + k..], seal));
    WindowIsNew(done, windows, WindowOf(group));
    WindowsOfSnoc(done, group);
    FlattenSnoc(done, group);
  }

  /** Nothing is left to record: the run has reached its goal. */
  lemma RunEnds(rule: Rule<Frame>, run: seq<Frame>, cursor: nat, windows: seq<Window>, settled: seq<seq<Frame>>,
                done: seq<seq<Frame>>, seal: bool)
    requires |Flatten(settled)| <= |run| && Flatten(settled) == run[..|Flatten(settled)|]
    requires Progress(rule, run, cursor, windows, done, Outcome(rule, settled, run[|Flatten(settled)|..], seal), seal)
    requires FirstCut(rule, run[cursor..]).None? && (seal ==> cursor == |run|)
    ensures
      var outcome := Outcome(rule, settled, run[|Flatten(settled)|..], seal);
      && NoneEmpty(outcome) && windows == WindowsOf(outcome)
      && Assembled(rule, run, cursor, if seal then outcome else settled, windows)
  {
    var rest := run[|Flatten(settled)|..];
    assert done == Outcome(rule, settled, rest, seal);
    FlattenAppend(settled, Remaining(rule, rest, seal));
    if seal {
      assert GroupsTo(rule, run[|run|..], 0) == [] && done + [] == done;
    } else {
      ClosedEndsAtBoundary(rule, rest);
    }
  }

  /** The frames of the list that carry on from `expected` without a hole. */
  function Contiguous(list: seq<Frame>, index: nat, expected: nat): (run: seq<Frame>)
    requires index <= |list|
    ensures |run| <= |list| - index
    decreases |list| - index
  {
    if index < |list| && list[index].sequence == expected
    then [list[index]] + Contiguous(list, index + 1, expected + 1)
    else []
  }

  /** The group a run takes next, or nothing when it stops here. */
  function NextGroup(rule: Rule<Frame>, list: seq<Frame>, seal: bool, index: nat, expected: nat)
    : (group: Option<seq<Frame>>)
    requires index <= |list|
    ensures group.Some? ==> 0 < |group.value| <= |list| - index
  {
    var run := Contiguous(list, index, expected);
    match FirstCut(rule, run)
    case Some(end) => Some(run[..end])
    case None => if run != [] && seal && index + |run| == |list| then Some(run) else None
  }

  lemma {:induction false} ContiguousAt(list: seq<Frame>, index: nat, expected: nat, i: nat)
    requires index <= |list| && i < |Contiguous(list, index, expected)|
    ensures Contiguous(list, index, expected)[i] == list[index + i]
    ensures list[index + i].sequence == expected + i
    decreases i
  {
    if i > 0 {
      ContiguousAt(list, index + 1, expected + 1, i - 1);
    }
  }

  /** `list` from `start` on begins with `tail`, and does not carry on behind it. */
  ghost predicate Begins(list: seq<Frame>, start: nat, tail: seq<Frame>) {
    && start + |tail| <= |list|
    && list[start..start + |tail|] == tail
    && (tail != [] && start + |tail| < |list| ==> list[start + |tail|].sequence != tail[|tail| - 1].sequence + 1)
  }

  /** One more chunk of the recording. */
  lemma CollectStep(list: seq<Frame>, start: nat, first: nat, tail: seq<Frame>, k: nat)
    requires Begins(list, start, tail) && Numbered(tail, first) && tail != []
    requires k <= |tail| && start + k < |list|
    ensures list[start + k].sequence == first + k <==> k < |tail|
    ensures k < |tail| ==> Pcm(tail[..k + 1]) == Pcm(tail[..k]) + list[start + k].pcm
  {
    if k < |tail| {
      assert tail[k] == list[start + k] && tail[..k + 1][..k] == tail[..k];
    }
  }

  /** What was collected is the window of the first chunks of the recording. */
  lemma CollectedWindow(list: seq<Frame>, start: nat, tail: seq<Frame>, k: nat)
    requires Begins(list, start, tail) && 0 < k <= |tail|
    ensures Window(list[start].sequence, list[start + k - 1].sequence, list[start].capturedAtMs, Pcm(tail[..k]))
         == WindowOf(tail[..k])
  {
    assert tail[0] == list[start] && tail[k - 1] == list[start + k - 1];
  }

  /**
   * The inner loop: chunks are joined until they make a complete window, a hole shows or the
   * list ends. `tail` is the recording from the first chunk on.
   */
  method CollectWindow(list: seq<Frame>, start: nat, first: nat, ghost tail: seq<Frame>)
      returns (index: nat, expected: nat, pcm: seq<Byte>, closed: bool)
    requires Begins(list, start, tail) && Numbered(tail, first) && tail != []
    ensures index == start + FirstEnd(AsrRule, tail) && expected == first + (index - start)
    ensures pcm == Pcm(tail[..index - start])
    ensures closed == FirstCut(AsrRule, tail).Some?
  {
    index, expected, pcm, closed := start, first, [], false;
    while index < |list|
      invariant start <= index <= start + |tail| && expected == first + (index - start) && !closed
      invariant pcm == Pcm(tail[..index - start])
      invariant FirstCut(AsrRule, tail) == CutAfter(AsrRule, tail, index - start)
    {
      CollectStep(list, start, first, tail, index - start);
      if list[index].sequence != expected { break; }
      pcm := pcm + list[index].pcm;
      index, expected := index + 1, expected + 1;
      if Closes(pcm) {
        closed := true;
        break;
      }
    }
  }

  /** From `index` on the list goes like the recording from `cursor` on, and shows a hole or its end behind it. */
  ghost predicate Agrees(list: seq<Frame>, index: nat, run: seq<Frame>, cursor: nat) {
    && cursor <= |run| && index + (|run| - cursor) <= |list|
    && list[index..index + (|run| - cursor)] == run[cursor..]
    && (index + (|run| - cursor) < |list| ==> list[index + (|run| - cursor)].sequence != |run| + 1)
  }

  /**
   * A run in progress: the list it reads agrees with the recording `run`, the part up to
   * `cursor` is recorded, and the tail is sealed if the run asks for it and the list ends with
   * the recording.
   */
  ghost predicate Running(list: seq<Frame>, index: nat, run: seq<Frame>, cursor: nat, windows: seq<Window>,
                          done: seq<seq<Frame>>, goal: seq<seq<Frame>>, sealTail: bool)
  {
    && Numbered(run, 1)
    && Agrees(list, index, run, cursor)
    && Progress(AsrRule, run, cursor, windows, done, goal, sealTail && index + (|run| - cursor) == |list|)
  }

  /** Nothing is left for a run to record. */
  ghost predicate Exhausted(list: seq<Frame>, index: nat, run: seq<Frame>, cursor: nat, sealTail: bool) {
    && cursor <= |run| && FirstCut(AsrRule, run[cursor..]).None?
    && (sealTail && index + (|run| - cursor) == |list| ==> cursor == |run|)
  }

  lemma RunBegins(list: seq<Frame>, chunks: map<nat, Frame>, cursor: nat, settled: seq<seq<Frame>>,
                  windows: seq<Window>, sealTail: bool)
    requires ChunkTable(chunks) && Lists(list, chunks, cursor)
    requires Assembled(AsrRule, RunFrom(chunks, 1), cursor, settled, windows)
    ensures
      var run := RunFrom(chunks, 1);
      Running(list, 0, run, cursor, windows, Groups(AsrRule, run, cursor, settled),
              Outcome(AsrRule, settled, run[|Flatten(settled)|..], sealTail && NoHole(chunks)), sealTail)
  {
    RunNumbered(chunks);
    ListStart(list, chunks, cursor);
    ListBreaks(list, chunks, cursor);
    ListEndsIff(list, chunks, cursor);
    RunStarts(AsrRule, RunFrom(chunks, 1), cursor, settled, windows, sealTail && NoHole(chunks));
  }

  /** The state that a run leaves, by the list's own sealing condition. */
  lemma RunCloses(list: seq<Frame>, index: nat, chunks: map<nat, Frame>, from: nat, cursor: nat, windows: seq<Window>,
                  settled: seq<seq<Frame>>, done: seq<seq<Frame>>, sealTail: bool)
    requires ChunkTable(chunks) && Lists(list, chunks, from)
    requires cursor == from + index
    requires
      var run := RunFrom(chunks, 1);
      && |Flatten(settled)| <= |run| && Flatten(settled) == run[..|Flatten(settled)|]
      && Running(list, index, run, cursor, windows, done,
                 Outcome(AsrRule, settled, run[|Flatten(settled)|..], sealTail && NoHole(chunks)), sealTail)
      && (index >= |list| || Exhausted(list, index, run, cursor, sealTail))
    ensures
      var run := RunFrom(chunks, 1);
      var outcome := Outcome(AsrRule, settled, run[|Flatten(settled)|..], sealTail && NoHole(chunks));
      && NoneEmpty(outcome) && windows == WindowsOf(outcome)
      && (sealTail && NoHole(chunks) ==> cursor == |run|)
      && Assembled(AsrRule, run, cursor, if sealTail && NoHole(chunks) then outcome else settled, windows)
  {
    ListEndsIff(list, chunks, from);
    RunEnds(AsrRule, RunFrom(chunks, 1), cursor, windows, settled, done, sealTail && NoHole(chunks));
  }

  lemma AgreesFurther(list: seq<Frame>, index: nat, run: seq<Frame>, cursor: nat, k: nat)
    requires Agrees(list, index, run, cursor) && cursor + k <= |run|
    ensures Agrees(list, index + k, run, cursor + k)
  {
    var end := index + (|run| - cursor);
    assert list[index + k..end] == list[index..end][k..];
  }

  lemma RunAdvances(list: seq<Frame>, index: nat, run: seq<Frame>, cursor: nat, windows: seq<Window>,
                    done: seq<seq<Frame>>, goal: seq<seq<Frame>>, sealTail: bool)
    requires Running(list, index, run, cursor, windows, done, goal, sealTail)
    requires cursor < |run|
    requires FirstCut(AsrRule, run[cursor..]).Some? || (sealTail && index + (|run| - cursor) == |list|)
    ensures
      var k := FirstEnd(AsrRule, run[cursor..]);
      var group := run[cursor..][..k];
      && WithWindow(windows, WindowOf(group)) == windows + [WindowOf(group)]
      && WindowOf(group).last == cursor + k
      && Running(list, index + k, run, cursor + k, windows + [WindowOf(group)], done + [group], goal, sealTail)
  {
    hide Progress, WithWindow, FirstEnd, FirstCut, WindowOf, Numbered, Agrees;
    var k := FirstEnd(AsrRule, run[cursor..]);
    var end := index + (|run| - cursor);
    RunTurns(AsrRule, run, cursor, windows, done, goal, sealTail && end == |list|);
    AgreesFurther(list, index, run, cursor, k);
    GroupIsNumbered(run, cursor, k);
  }

  /** What the list shows where a run stands. */
  lemma RunSees(list: seq<Frame>, index: nat, run: seq<Frame>, cursor: nat, windows: seq<Window>,
                done: seq<seq<Frame>>, goal: seq<seq<Frame>>, sealTail: bool)
    requires Running(list, index, run, cursor, windows, done, goal, sealTail) && index < |list|
    ensures cursor <= |run| && index + (|run| - cursor) <= |list|
    ensures list[index].sequence == cursor + 1 <==> cursor < |run|
    ensures Numbered(run[cursor..], cursor + 1)
    ensures Begins(list, index, run[cursor..])
    ensures FirstCut(AsrRule, []).None?
  {
    hide Progress;
    if cursor < |run| {
      assert list[index..index + (|run| - cursor)][0] == list[index] && run[cursor..][0] == run[cursor];
      assert run[cursor..][|run| - cursor - 1] == run[|run| - 1];
    }
  }

  lemma {:induction false} BeginsIsContiguous(list: seq<Frame>, start: nat, first: nat, tail: seq<Frame>)
    requires Begins(list, start, tail) && Numbered(tail, first)
    requires start + |tail| < |list| ==> list[start + |tail|].sequence != first + |tail|
    ensures Contiguous(list, start, first) == tail
    decreases |tail|
  {
    if tail != [] {
      assert tail[0] == list[start];
      assert tail[1..] == list[start + 1..start + |tail|];
      BeginsIsContiguous(list, start + 1, first + 1, tail[1..]);
    }
  }

  /** The window of the group that a run takes next. */
  function NextOf(list: seq<Frame>, sealTail: bool, start: nat, expected: nat): Option<Window>
    requires start <= |list|
  {
    match NextGroup(AsrRule, list, sealTail, start, expected)
    case None => None
    case Some(group) => Some(WindowOf(group))
  }

  lemma NextOfTail(list: seq<Frame>, sealTail: bool, start: nat, expected: nat, tail: seq<Frame>)
    requires start < |list| && Begins(list, start, tail) && Numbered(tail, expected)
    requires list[start].sequence == expected <==> tail != []
    ensures NextOf(list, sealTail, start, expected)
         == if tail != [] && (FirstCut(AsrRule, tail).Some? || (sealTail && start + |tail| == |list|))
            then Some(WindowOf(tail[..FirstEnd(AsrRule, tail)])) else None
  {
    if tail != [] {
      assert tail[|tail| - 1].sequence == expected + |tail| - 1;
    }
    BeginsIsContiguous(list, start, expected, tail);
    assert tail[..|tail|] == tail;
  }

  /** One turn of the outer loop: the next window, or nothing when the run stops here. */
  method NextWindow(list: seq<Frame>, start: nat, expected: nat, sealTail: bool, ghost run: seq<Frame>,
                    ghost windows: seq<Window>, ghost done: seq<seq<Frame>>, ghost goal: seq<seq<Frame>>)
      returns (index: nat, next: Option<Window>, ghost group: seq<Frame>)
    requires expected > 0 && start < |list|
    requires Running(list, start, run, expected - 1, windows, done, goal, sealTail)
    ensures next == NextOf(list, sealTail, start, expected)
    ensures next.None? ==> Exhausted(list, start, run, expected - 1, sealTail)
    ensures next.Some? ==>
      && start < index
      && WithWindow(windows, next.value) == windows + [next.value]
      && next.value.last == expected - 1 + (index - start)
      && Running(list, index, run, next.value.last, windows + [next.value], done + [group], goal, sealTail)
  {
    hide Running, Progress, Numbered, Begins, WithWindow, WindowOf, Pcm, NextOf;
    group, index, next := [], start, None;
    RunSees(list, start, run, expected - 1, windows, done, goal, sealTail);
    ghost var tail := run[expected - 1..];
    NextOfTail(list, sealTail, start, expected, tail);
    if list[index].sequence != expected { return; }
    var after, pcm, closed;
    index, after, pcm, closed := CollectWindow(list, start, expected, tail);
    if !(closed || (sealTail && index == |list|)) { return; }
    CollectedWindow(list, start, tail, index - start);
    RunAdvances(list, start, run, expected - 1, windows, done, goal, sealTail);
    group := tail[..index - start];
    next := Some(Window(list[start].sequence, list[index - 1].sequence, list[start].capturedAtMs, pcm));
  }

  class AudioStore {
    var chunks: map<nat, Frame>
    // The last assembled sequence; 0 while no window has been recorded.
    var cursor: nat
    var windows: seq<Window>
    // The groups up to the last sealed tail.
    ghost var settled: seq<seq<Frame>>

    ghost predicate Valid()
      reads this
    {
      && ChunkTable(chunks)
      && Assembled(AsrRule, RunFrom(chunks, 1), cursor, settled, windows)
    }

    constructor ()
      ensures Valid() && chunks == map[] && windows == [] && settled == []
    {
      chunks, cursor, windows, settled := map[], 0, [], [];
    }

    method PersistFrame(frame: seq<Byte>) returns (receipt: Receipt)
      requires Valid()
      modifies this`chunks
      ensures Valid()
      ensures receipt == Receive(old(chunks), frame)
      ensures chunks == AfterReceive(old(chunks), frame)
      ensures receipt.Stored? || receipt.Duplicate? ==>
        ParseFrame(frame).Ok? && receipt.sequence in chunks && chunks[receipt.sequence] == ParseFrame(frame).value
    {
      var parsed := ParseFrame(frame);
      if parsed.Err? { return Refused(parsed.error); }
      var chunk := parsed.value;
      if chunk.sequence !in chunks {
        RunGrows(chunks, 1, chunk.sequence, chunk);
        AssembledGrows(AsrRule, RunFrom(chunks, 1), RunFrom(chunks[chunk.sequence := chunk], 1),
                       cursor, settled, windows);
        chunks := chunks[chunk.sequence := chunk];
        return Stored(chunk.sequence);
      }
      if chunks[chunk.sequence] != chunk { return Conflict(chunks[chunk.sequence]); }
      return Duplicate(chunk.sequence);
    }

    /** What the recording behind the last sealed tail holds. */
    ghost function Unsettled(): seq<Frame>
      requires Valid()
      reads this
    {
      RunFrom(chunks, 1)[|Flatten(settled)|..]
    }

    /**
     * One uninterrupted run over the store's list. Afterwards the windows are a function of
     * the stored chunks and of the tails sealed earlier, however many runs came before.
     */
    method AssembleSource(list: seq<Frame>, sealTail: bool) returns (queued: nat)
      requires Valid() && Lists(list, chunks, cursor)
      modifies this`cursor, this`windows, this`settled
      ensures Valid()
      ensures
        var outcome := Outcome(AsrRule, old(settled), old(Unsettled()), sealTail && NoHole(chunks));
        && NoneEmpty(outcome) && windows == WindowsOf(outcome)
        && settled == if sealTail && NoHole(chunks) then outcome else old(settled)
      ensures sealTail && NoHole(chunks) ==> cursor == |RunFrom(chunks, 1)|
      ensures old(windows) <= windows && queued == |windows| - |old(windows)|
    {
      hide Running, Progress, Outcome, Exhausted, RunFrom, NoHole, Lists, ChunkTable, NoneEmpty, WindowsOf;
      ghost var from := cursor;
      ghost var sealing := sealTail && NoHole(chunks);
      ghost var index, done;
      RunBegins(list, chunks, cursor, settled, windows, sealTail);
      ghost var run := RunFrom(chunks, 1);
      ghost var goal := Outcome(AsrRule, settled, run[|Flatten(settled)|..], sealing);
      queued, index, done := RecordWindows(list, sealTail, run, Groups(AsrRule, run, cursor, settled), goal);
      RunCloses(list, index, chunks, from, cursor, windows, settled, done, sealTail);
      if sealing {
        settled := goal;
      }
    }

    method RecordWindows(list: seq<Frame>, sealTail: bool, ghost run: seq<Frame>,
                         ghost before: seq<seq<Frame>>, ghost goal: seq<seq<Frame>>)
        returns (queued: nat, ghost index: nat, ghost done: seq<seq<Frame>>)
      requires Running(list, 0, run, cursor, windows, before, goal, sealTail)
      modifies this`cursor, this`windows
      ensures Running(list, index, run, cursor, windows, done, goal, sealTail)
      ensures index >= |list| || Exhausted(list, index, run, cursor, sealTail)
      ensures cursor == old(cursor) + index
      ensures old(windows) <= windows && queued == |windows| - |old(windows)|
    {
      hide Running, Exhausted, WithWindow;
      var next := 0;
      queued, index, done := 0, 0, before;
      while next < |list|
        invariant next == index && cursor == old(cursor) + index
        invariant Running(list, index, run, cursor, windows, done, goal, sealTail)
        invariant old(windows) <= windows && queued == |windows| - |old(windows)|
      {
        var end, window;
        ghost var group;
        end, window, group := NextWindow(list, next, cursor + 1, sealTail, run, windows, done, goal);
        if window.None? { break; }
        done := done + [group];
        RecordWindow(window.value);
        next, index := end, end;
        queued := queued + 1;
      }
    }

    /** The store's transaction for one window. */
    method RecordWindow(window: Window)
      modifies this`windows, this`cursor
      ensures windows == WithWindow(old(windows), window)
      ensures cursor == if window.last > old(cursor) then window.last else old(cursor)
    {
      windows := WithWindow(windows, window);
      cursor := if window.last > cursor then window.last else cursor;
    }
  }
}
