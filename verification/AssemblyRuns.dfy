/**
 * Assembly runs that interleave with each other, with arriving frames and with Core restarts
 * (crates/core-server/src/audio.rs, `assemble_source`, `flush_session_buffers`,
 * `recover_audio_assembly`, `run_audio_assembler`).
 *
 * A run lists the chunks above the cursor, reads the cursor in a second statement, and then
 * enqueues a job and records its window in two further statements for each group. Any number
 * of runs is in progress at once: the background assembler, a restart scan and a stop flush
 * take no common lock.
 */
module AssemblyRuns {
  import opened Sequences
  import opened FrameCodec
  import opened Segmenter
  import opened Windows
  import opened Assembler

  /** Where one run of `assemble_source` stands. */
  datatype Run =
    | Listed(list: seq<Frame>, seal: bool)
    | Working(list: seq<Frame>, seal: bool, index: nat, expected: nat)
    | Enqueued(list: seq<Frame>, seal: bool, index: nat, expected: nat, window: Window)

  datatype Server = Server(
    chunks: map<nat, Frame>,
    cursor: nat,
    windows: seq<Window>,
    jobs: set<Window>,
    stopping: bool,
    runs: map<nat, Run>)

  datatype Step =
    | Receive(message: seq<Byte>)
    | StopSession
    | ListChunks(id: nat, seal: bool, list: seq<Frame>)
    | ReadCursor(id: nat)
    | EnqueueJob(id: nat)
    | RecordWindow(id: nat)
    | FinishRun(id: nat)
    | Restart

  ghost predicate Enabled(rule: Rule<Frame>, s: Server, step: Step) {
    match step
    case Receive(_) => true
    case StopSession => true
    case ListChunks(id, seal, list) =>
      id !in s.runs && Lists(list, s.chunks, s.cursor) && list != [] && (seal ==> s.stopping)
    case ReadCursor(id) => id in s.runs && s.runs[id].Listed?
    case EnqueueJob(id) =>
      id in s.runs && s.runs[id].Working? && s.runs[id].index <= |s.runs[id].list|
      && NextGroup(rule, s.runs[id].list, s.runs[id].seal, s.runs[id].index, s.runs[id].expected).Some?
    case RecordWindow(id) => id in s.runs && s.runs[id].Enqueued?
    case FinishRun(id) =>
      id in s.runs && s.runs[id].Working? && s.runs[id].index <= |s.runs[id].list|
      && NextGroup(rule, s.runs[id].list, s.runs[id].seal, s.runs[id].index, s.runs[id].expected).None?
    case Restart => true
  }

  function Next(rule: Rule<Frame>, s: Server, step: Step): Server
    requires Enabled(rule, s, step)
  {
    match step
    case Receive(message) => s.(chunks := AfterReceive(s.chunks, message))
    case StopSession => s.(stopping := true)
    case ListChunks(id, seal, list) => s.(runs := s.runs[id := Listed(list, seal)])
    case ReadCursor(id) =>
      s.(runs := s.runs[id := Working(s.runs[id].list, s.runs[id].seal, 0, s.cursor + 1)])
    case EnqueueJob(id) =>
      var r := s.runs[id];
      var group := NextGroup(rule, r.list, r.seal, r.index, r.expected).value;
      s.(jobs := s.jobs + {WindowOf(group)},
         runs := s.runs[id := Enqueued(r.list, r.seal, r.index + |group|, r.expected + |group|, WindowOf(group))])
    case RecordWindow(id) =>
      var r := s.runs[id];
      s.(windows := WithWindow(s.windows, r.window),
         cursor := if r.window.last > s.cursor then r.window.last else s.cursor,
         runs := s.runs[id := Working(r.list, r.seal, r.index, r.expected)])
    case FinishRun(id) => s.(runs := s.runs - {id})
    case Restart => s.(runs := map[])
  }

  // What holds in every state, with `history` the frames that the client has persisted

  ghost predicate Stored(chunks: map<nat, Frame>, history: seq<Frame>) {
    forall n | n in chunks :: 1 <= n <= |history| && chunks[n] == history[n - 1]
  }

  ghost predicate Complete(chunks: map<nat, Frame>, history: seq<Frame>) {
    forall n | 1 <= n <= |history| :: n in chunks
  }

  /** The windows are the groups of the one-shot cut up to the cursor. */
  ghost predicate Recorded(rule: Rule<Frame>, history: seq<Frame>, cursor: nat, windows: seq<Window>, final: bool) {
    && IsBoundary(rule, history, cursor, final)
    && NoneEmpty(GroupsTo(rule, history, cursor))
    && windows == WindowsOf(GroupsTo(rule, history, cursor))
  }

  /** `window` is the group that starts behind the first `p` frames. */
  ghost predicate NextAt(rule: Rule<Frame>, history: seq<Frame>, p: nat, final: bool, window: Window) {
    && p < |history|
    && (FirstCut(rule, history[p..]).Some? || final)
    && window == WindowOf(history[p..p + FirstEnd(rule, history[p..])])
  }

  /** Every job is a recorded window, or the one next in turn, left by a run that has not recorded it. */
  ghost predicate JobsFit(rule: Rule<Frame>, history: seq<Frame>, s: Server) {
    forall job | job in s.jobs :: job in s.windows || NextAt(rule, history, s.cursor, s.stopping, job)
  }

  ghost predicate Drawn(list: seq<Frame>, history: seq<Frame>) {
    forall i | 0 <= i < |list| :: 1 <= list[i].sequence <= |history| && history[list[i].sequence - 1] == list[i]
  }

  /** What a run works on; a sealing run has all of the history from some place on. */
  ghost predicate ListFits(history: seq<Frame>, list: seq<Frame>, seal: bool, stopping: bool) {
    && Drawn(list, history)
    && (seal ==> stopping && |list| <= |history| && list == history[|history| - |list|..])
  }

  ghost predicate RunFits(rule: Rule<Frame>, history: seq<Frame>, cursor: nat, stopping: bool, run: Run) {
    && ListFits(history, run.list, run.seal, stopping)
    && match run
       case Listed(_, _) => true
       case Working(list, _, index, expected) =>
         && index <= |list| && 1 <= expected <= cursor + 1
         && IsBoundary(rule, history, expected - 1, stopping)
       case Enqueued(list, _, index, expected, window) =>
         && index <= |list| && 1 <= window.first <= cursor + 1
         && IsBoundary(rule, history, window.first - 1, stopping)
         && NextAt(rule, history, window.first - 1, stopping, window)
         && expected == window.last + 1
  }

  ghost predicate RunsFit(rule: Rule<Frame>, history: seq<Frame>, s: Server) {
    forall id | id in s.runs :: RunFits(rule, history, s.cursor, s.stopping, s.runs[id])
  }

  ghost predicate ServerInv(rule: Rule<Frame>, history: seq<Frame>, s: Server) {
    && Numbered(history, 1)
    && Stored(s.chunks, history)
    && (s.stopping ==> Complete(s.chunks, history))
    && Recorded(rule, history, s.cursor, s.windows, s.stopping)
    && JobsFit(rule, history, s)
    && RunsFit(rule, history, s)
  }

  // A run's next group is the next group of the history

  lemma ContiguousIsHistory(list: seq<Frame>, index: nat, expected: nat, history: seq<Frame>)
    requires index <= |list| && expected >= 1 && Drawn(list, history) && Numbered(history, 1)
    ensures
      var run := Contiguous(list, index, expected);
      && run == list[index..index + |run|]
      && (run != [] ==> expected - 1 + |run| <= |history| && run == history[expected - 1..expected - 1 + |run|])
  {
    var run := Contiguous(list, index, expected);
    hide Contiguous;
    forall i | 0 <= i < |run|
      ensures run[i] == list[index + i] && expected + i <= |history| && run[i] == history[expected - 1 + i]
    {
      ContiguousAt(list, index, expected, i);
    }
    if run != [] {
      ContiguousAt(list, index, expected, |run| - 1);
    }
  }

  lemma CutOfPrefix(rule: Rule<Frame>, history: seq<Frame>, p: nat, run: seq<Frame>)
    requires p + |run| <= |history| && run == history[p..p + |run|] && FirstCut(rule, run).Some?
    ensures FirstCut(rule, history[p..]) == FirstCut(rule, run)
  {
    assert history[p..] == run + history[p + |run|..];
    CutExtends(rule, run, history[p + |run|..], 0);
  }

  lemma RunToTheEnd(list: seq<Frame>, index: nat, p: nat, run: seq<Frame>, history: seq<Frame>)
    requires Numbered(history, 1) && |list| <= |history| && list == history[|history| - |list|..]
    requires run != [] && index + |run| == |list| && run == list[index..]
    requires p + |run| <= |history| && run == history[p..p + |run|]
    ensures run == history[p..]
  {
    assert run[0] == history[|history| - |list| + index] && run[0] == history[p];
  }

  lemma NextGroupIsNext(rule: Rule<Frame>, history: seq<Frame>, list: seq<Frame>, seal: bool, stopping: bool,
                        index: nat, expected: nat)
    requires Numbered(history, 1) && ListFits(history, list, seal, stopping)
    requires index <= |list| && expected >= 1 && NextGroup(rule, list, seal, index, expected).Some?
    ensures
      var group := NextGroup(rule, list, seal, index, expected).value;
      && expected - 1 < |history|
      && (FirstCut(rule, history[expected - 1..]).Some? || stopping)
      && |group| == FirstEnd(rule, history[expected - 1..])
      && group == history[expected - 1..expected - 1 + |group|]
  {
    var p := expected - 1;
    var run := Contiguous(list, index, expected);
    ContiguousIsHistory(list, index, expected, history);
    hide Contiguous, CutAfter, Drawn;
    if FirstCut(rule, run).Some? {
      CutOfPrefix(rule, history, p, run);
    } else {
      RunToTheEnd(list, index, p, run, history);
    }
  }

  // What recording a window does to the tables

  lemma NextBounds(rule: Rule<Frame>, history: seq<Frame>, p: nat, final: bool, window: Window)
    requires Numbered(history, 1) && NextAt(rule, history, p, final, window)
    ensures window.first == p + 1
    ensures window.last == p + FirstEnd(rule, history[p..])
    ensures p < window.last <= |history|
  {
  }

  lemma RecordedJoin(rule: Rule<Frame>, history: seq<Frame>, cursor: nat, windows: seq<Window>, final: bool)
    requires Recorded(rule, history, cursor, windows, final)
    ensures cursor <= |history|
    ensures Flatten(GroupsTo(rule, history, cursor)) == history[..cursor]
  {
    GroupsJoin(rule, history, cursor, final);
  }

  lemma WindowIsOld(windows: seq<Window>, window: Window)
    requires window in windows
    ensures WithWindow(windows, window) == windows
  {
  }

  lemma GroupIsWindow(groups: seq<seq<Frame>>, group: seq<Frame>)
    requires NoneEmpty(groups) && group in groups && group != []
    ensures WindowOf(group) in WindowsOf(groups)
  {
    var i :| 0 <= i < |groups| && groups[i] == group;
    assert WindowsOf(groups)[i] == WindowOf(group);
  }

  /** A run that has fallen behind finds its window recorded already. */
  lemma BehindCursor(rule: Rule<Frame>, history: seq<Frame>, p: nat, cursor: nat, windows: seq<Window>,
                     final: bool, window: Window)
    requires Numbered(history, 1) && Recorded(rule, history, cursor, windows, final)
    requires IsBoundary(rule, history, p, final) && p < cursor && NextAt(rule, history, p, final, window)
    ensures window in windows && window.last <= cursor
    ensures WithWindow(windows, window) == windows
  {
    hide WindowOf, IsBoundary, GroupsTo, FirstEnd, FirstCut, NoneEmpty, Flatten, WithWindow;
    RecordedJoin(rule, history, cursor, windows, final);
    NextBounds(rule, history, p, final, window);
    GroupBefore(rule, history, p, cursor, final);
    GroupIsWindow(GroupsTo(rule, history, cursor), history[p..p + FirstEnd(rule, history[p..])]);
    WindowIsOld(windows, window);
  }

  lemma AtCursor(rule: Rule<Frame>, history: seq<Frame>, cursor: nat, windows: seq<Window>, final: bool, window: Window)
    requires Numbered(history, 1) && Recorded(rule, history, cursor, windows, final)
    requires NextAt(rule, history, cursor, final, window)
    ensures WithWindow(windows, window) == windows + [window]
    ensures Recorded(rule, history, window.last, windows + [window], final)
  {
    hide IsBoundary, GroupsTo, FirstCut, FirstEnd, Flatten, NoneEmpty, WithWindow, WindowOf, WindowsOf, Numbered;
    var groups := GroupsTo(rule, history, cursor);
    NextBounds(rule, history, cursor, final, window);
    RecordedJoin(rule, history, cursor, windows, final);
    NextBoundary(rule, history, cursor, final);
    NumberedTake(history, cursor);
    WindowIsNew(groups, windows, window);
    WindowsOfSnoc(groups, history[cursor..cursor + FirstEnd(rule, history[cursor..])]);
  }

  /** Where a run stands after its next window is a boundary. */
  lemma NextIsBoundary(rule: Rule<Frame>, history: seq<Frame>, p: nat, final: bool, window: Window)
    requires Numbered(history, 1) && IsBoundary(rule, history, p, final) && NextAt(rule, history, p, final, window)
    ensures IsBoundary(rule, history, window.last, final)
  {
    NextBounds(rule, history, p, final, window);
    NextBoundary(rule, history, p, final);
  }

  // The invariant is kept by every step

  lemma ReceiveKeeps(rule: Rule<Frame>, history: seq<Frame>, s: Server, message: seq<Byte>)
    requires ServerInv(rule, history, s)
    requires ParseFrame(message).Ok?
    requires 1 <= ParseFrame(message).value.sequence <= |history|
    requires history[ParseFrame(message).value.sequence - 1] == ParseFrame(message).value
    ensures ServerInv(rule, history, Next(rule, s, Receive(message)))
    ensures !Assembler.Receive(s.chunks, message).Conflict?
  {
    hide Recorded, RunFits, NextAt, ParseFrame;
  }

  lemma RunAtStop(rule: Rule<Frame>, history: seq<Frame>, cursor: nat, run: Run)
    requires RunFits(rule, history, cursor, false, run)
    ensures RunFits(rule, history, cursor, true, run)
  {
    match run
    case Listed(_, _) =>
    case Working(_, _, _, expected) => BoundaryFinal(rule, history, expected - 1);
    case Enqueued(_, _, _, _, window) => BoundaryFinal(rule, history, window.first - 1);
  }

  lemma StopKeeps(rule: Rule<Frame>, history: seq<Frame>, s: Server)
    requires ServerInv(rule, history, s) && Complete(s.chunks, history)
    ensures ServerInv(rule, history, Next(rule, s, StopSession))
  {
    if !s.stopping {
      BoundaryFinal(rule, history, s.cursor);
      forall id | id in s.runs
        ensures RunFits(rule, history, s.cursor, true, s.runs[id])
      {
        assert RunFits(rule, history, s.cursor, false, s.runs[id]);
        RunAtStop(rule, history, s.cursor, s.runs[id]);
      }
    }
  }

  lemma NextStays(rule: Rule<Frame>, history: seq<Frame>, frame: Frame, p: nat, window: Window)
    requires NextAt(rule, history, p, false, window)
    ensures NextAt(rule, history + [frame], p, false, window)
  {
    var k := FirstEnd(rule, history[p..]);
    assert (history + [frame])[p..|history|] == history[p..];
    CutOfPrefix(rule, history + [frame], p, history[p..]);
    assert (history + [frame])[p..p + k] == history[p..p + k];
  }

  lemma RunGoesOn(rule: Rule<Frame>, history: seq<Frame>, frame: Frame, cursor: nat, run: Run)
    requires RunFits(rule, history, cursor, false, run)
    ensures RunFits(rule, history + [frame], cursor, false, run)
  {
    match run
    case Listed(_, _) =>
    case Working(_, _, _, expected) =>
      BoundaryExtends(rule, history, [frame], expected - 1);
    case Enqueued(_, _, _, _, window) =>
      BoundaryExtends(rule, history, [frame], window.first - 1);
      NextStays(rule, history, frame, window.first - 1, window);
  }

  /** While the session records, the client adds frames and nothing recorded so far changes. */
  lemma HistoryGrows(rule: Rule<Frame>, history: seq<Frame>, frame: Frame, s: Server)
    requires ServerInv(rule, history, s) && !s.stopping && frame.sequence == |history| + 1
    ensures ServerInv(rule, history + [frame], s)
  {
    BoundaryExtends(rule, history, [frame], s.cursor);
    forall job | job in s.jobs
      ensures job in s.windows || NextAt(rule, history + [frame], s.cursor, s.stopping, job)
    {
      if job !in s.windows {
        NextStays(rule, history, frame, s.cursor, job);
      }
    }
    forall id | id in s.runs
      ensures RunFits(rule, history + [frame], s.cursor, s.stopping, s.runs[id])
    {
      assert RunFits(rule, history, s.cursor, s.stopping, s.runs[id]);
      RunGoesOn(rule, history, frame, s.cursor, s.runs[id]);
    }
  }

  /** The store's list while the client is still ahead: any of the history above the cursor. */
  lemma ListIsDrawn(list: seq<Frame>, chunks: map<nat, Frame>, cursor: nat, history: seq<Frame>)
    requires Stored(chunks, history) && Numbered(history, 1) && Lists(list, chunks, cursor)
    ensures Drawn(list, history)
  {
  }

  lemma RunIsHistory(chunks: map<nat, Frame>, history: seq<Frame>)
    requires Stored(chunks, history) && Complete(chunks, history)
    ensures RunFrom(chunks, 1) == history && NoHole(chunks)
  {
    var run := RunFrom(chunks, 1);
    RunEndsAtHole(chunks, 1);
    if |run| > |history| {
      RunHolds(chunks, 1, |history|);
    }
    forall i | 0 <= i < |run|
      ensures run[i] == history[i]
    {
      RunHolds(chunks, 1, i);
    }
  }

  /** Once every frame is stored, the list is the whole history above the cursor. */
  lemma ListIsTail(list: seq<Frame>, chunks: map<nat, Frame>, cursor: nat, history: seq<Frame>)
    requires Stored(chunks, history) && Complete(chunks, history) && Numbered(history, 1)
    requires Lists(list, chunks, cursor) && cursor <= |history|
    ensures |list| == |history| - cursor && list == history[cursor..]
  {
    RunIsHistory(chunks, history);
    ListStart(list, chunks, cursor);
    ListEndsIff(list, chunks, cursor);
  }

  lemma ListKeeps(rule: Rule<Frame>, history: seq<Frame>, s: Server, step: Step)
    requires ServerInv(rule, history, s) && step.ListChunks? && Enabled(rule, s, step)
    ensures ServerInv(rule, history, Next(rule, s, step))
  {
    hide Recorded, NextAt, Stored, Complete, Numbered, Assembler.Lists, NextGroup;
    RecordedJoin(rule, history, s.cursor, s.windows, s.stopping);
    ListIsDrawn(step.list, s.chunks, s.cursor, history);
    if step.seal {
      ListIsTail(step.list, s.chunks, s.cursor, history);
    }
    assert RunFits(rule, history, s.cursor, s.stopping, Listed(step.list, step.seal));
  }

  lemma ReadKeeps(rule: Rule<Frame>, history: seq<Frame>, s: Server, id: nat)
    requires ServerInv(rule, history, s) && Enabled(rule, s, ReadCursor(id))
    ensures ServerInv(rule, history, Next(rule, s, ReadCursor(id)))
  {
    var run := Next(rule, s, ReadCursor(id)).runs[id];
    assert RunFits(rule, history, s.cursor, s.stopping, s.runs[id]);
    assert RunFits(rule, history, s.cursor, s.stopping, run);
    hide RunFits, Recorded, NextAt, Stored, Complete, Numbered;
  }

  lemma WorkingFits(rule: Rule<Frame>, history: seq<Frame>, cursor: nat, stopping: bool, r: Run)
    requires r.Working? && RunFits(rule, history, cursor, stopping, r)
    ensures ListFits(history, r.list, r.seal, stopping)
    ensures r.index <= |r.list| && 1 <= r.expected <= cursor + 1
    ensures IsBoundary(rule, history, r.expected - 1, stopping)
  {
    hide ListFits, IsBoundary;
  }

  /** What the run finds is the group that begins at its place in the history. */
  lemma GroupIsNextAt(rule: Rule<Frame>, history: seq<Frame>, stopping: bool, r: Run)
    requires Numbered(history, 1) && r.Working? && ListFits(history, r.list, r.seal, stopping)
    requires r.index <= |r.list| && r.expected >= 1
    requires NextGroup(rule, r.list, r.seal, r.index, r.expected).Some?
    ensures
      var group := NextGroup(rule, r.list, r.seal, r.index, r.expected).value;
      && NextAt(rule, history, r.expected - 1, stopping, WindowOf(group))
      && |group| <= |r.list| - r.index
  {
    NextGroupIsNext(rule, history, r.list, r.seal, stopping, r.index, r.expected);
    hide NextGroup, FirstEnd, FirstCut, ListFits, WindowOf, Numbered;
  }

  /** Behind the group the run expects what comes behind the window. */
  lemma GroupEnds(rule: Rule<Frame>, history: seq<Frame>, stopping: bool, r: Run)
    requires Numbered(history, 1) && r.Working? && ListFits(history, r.list, r.seal, stopping)
    requires r.index <= |r.list| && r.expected >= 1
    requires NextGroup(rule, r.list, r.seal, r.index, r.expected).Some?
    ensures
      var group := NextGroup(rule, r.list, r.seal, r.index, r.expected).value;
      r.expected + |group| == WindowOf(group).last + 1
  {
    NextGroupIsNext(rule, history, r.list, r.seal, stopping, r.index, r.expected);
    GroupIsNextAt(rule, history, stopping, r);
    var group := NextGroup(rule, r.list, r.seal, r.index, r.expected).value;
    NextBounds(rule, history, r.expected - 1, stopping, WindowOf(group));
    hide *;
  }

  lemma RunEnqueues(rule: Rule<Frame>, history: seq<Frame>, cursor: nat, stopping: bool, r: Run, window: Window, n: nat)
    requires r.Working? && ListFits(history, r.list, r.seal, stopping)
    requires n <= |r.list| - r.index && 1 <= r.expected <= cursor + 1
    requires IsBoundary(rule, history, r.expected - 1, stopping)
    requires NextAt(rule, history, r.expected - 1, stopping, window)
    requires window.first == r.expected && r.expected + n == window.last + 1
    ensures RunFits(rule, history, cursor, stopping, Enqueued(r.list, r.seal, r.index + n, r.expected + n, window))
  {
    hide ListFits, IsBoundary, NextAt;
  }

  /** The run that `EnqueueJob` leaves. */
  lemma EnqueuedFits(rule: Rule<Frame>, history: seq<Frame>, cursor: nat, stopping: bool, r: Run)
    requires Numbered(history, 1) && r.Working? && RunFits(rule, history, cursor, stopping, r)
    requires NextGroup(rule, r.list, r.seal, r.index, r.expected).Some?
    ensures 1 <= r.expected
    ensures
      var group := NextGroup(rule, r.list, r.seal, r.index, r.expected).value;
      && r.expected <= cursor + 1
      && IsBoundary(rule, history, r.expected - 1, stopping)
      && NextAt(rule, history, r.expected - 1, stopping, WindowOf(group))
      && RunFits(rule, history, cursor, stopping,
                 Enqueued(r.list, r.seal, r.index + |group|, r.expected + |group|, WindowOf(group)))
  {
    hide *;
    var group := NextGroup(rule, r.list, r.seal, r.index, r.expected).value;
    WorkingFits(rule, history, cursor, stopping, r);
    GroupIsNextAt(rule, history, stopping, r);
    NextBounds(rule, history, r.expected - 1, stopping, WindowOf(group));
    GroupEnds(rule, history, stopping, r);
    RunEnqueues(rule, history, cursor, stopping, r, WindowOf(group), |group|);
  }

  lemma EnqueueKeeps(rule: Rule<Frame>, history: seq<Frame>, s: Server, id: nat)
    requires ServerInv(rule, history, s) && Enabled(rule, s, EnqueueJob(id))
    ensures ServerInv(rule, history, Next(rule, s, EnqueueJob(id)))
  {
    hide RunFits, Recorded, NextAt, Stored, Complete, Numbered, NextGroup, WindowOf;
    var r := s.runs[id];
    var window := WindowOf(NextGroup(rule, r.list, r.seal, r.index, r.expected).value);
    assert RunFits(rule, history, s.cursor, s.stopping, r);
    EnqueuedFits(rule, history, s.cursor, s.stopping, r);
    if r.expected - 1 < s.cursor {
      BehindCursor(rule, history, r.expected - 1, s.cursor, s.windows, s.stopping, window);
    }
  }

  lemma RunMonotone(rule: Rule<Frame>, history: seq<Frame>, cursor: nat, later: nat, stopping: bool, run: Run)
    requires RunFits(rule, history, cursor, stopping, run) && cursor <= later
    ensures RunFits(rule, history, later, stopping, run)
  {
    hide IsBoundary, NextAt, ListFits;
  }

  lemma NextIsOne(rule: Rule<Frame>, history: seq<Frame>, p: nat, final: bool, a: Window, b: Window)
    requires NextAt(rule, history, p, final, a) && NextAt(rule, history, p, final, b)
    ensures a == b
  {
  }

  /** The tables and the run after a window has been recorded, whether or not it was new. */
  lemma WindowRecorded(rule: Rule<Frame>, history: seq<Frame>, cursor: nat, windows: seq<Window>, stopping: bool,
                       r: Run)
    requires Numbered(history, 1) && Recorded(rule, history, cursor, windows, stopping)
    requires r.Enqueued? && RunFits(rule, history, cursor, stopping, r)
    ensures
      var later := if r.window.last > cursor then r.window.last else cursor;
      var after := WithWindow(windows, r.window);
      && Recorded(rule, history, later, after, stopping)
      && RunFits(rule, history, later, stopping, Working(r.list, r.seal, r.index, r.expected))
      && windows <= after
      && (forall job | NextAt(rule, history, cursor, stopping, job) :: job in after || later == cursor)
  {
    hide Recorded, IsBoundary, WithWindow, NextAt, WindowOf, FirstEnd, ListFits, Numbered;
    var p := r.window.first - 1;
    NextBounds(rule, history, p, stopping, r.window);
    NextIsBoundary(rule, history, p, stopping, r.window);
    forall job | NextAt(rule, history, p, stopping, job)
      ensures job == r.window
    {
      NextIsOne(rule, history, p, stopping, job, r.window);
    }
    if p < cursor {
      BehindCursor(rule, history, p, cursor, windows, stopping, r.window);
    } else {
      AtCursor(rule, history, cursor, windows, stopping, r.window);
    }
  }

  lemma RecordKeeps(rule: Rule<Frame>, history: seq<Frame>, s: Server, id: nat)
    requires ServerInv(rule, history, s) && Enabled(rule, s, RecordWindow(id))
    ensures ServerInv(rule, history, Next(rule, s, RecordWindow(id)))
  {
    hide RunFits, Recorded, NextAt, Stored, Complete, Numbered, WithWindow;
    var next := Next(rule, s, RecordWindow(id));
    assert RunFits(rule, history, s.cursor, s.stopping, s.runs[id]);
    WindowRecorded(rule, history, s.cursor, s.windows, s.stopping, s.runs[id]);
    forall other | other in next.runs && other != id
      ensures RunFits(rule, history, next.cursor, s.stopping, s.runs[other])
    {
      RunMonotone(rule, history, s.cursor, next.cursor, s.stopping, s.runs[other]);
    }
  }

  lemma FinishKeeps(rule: Rule<Frame>, history: seq<Frame>, s: Server, step: Step)
    requires ServerInv(rule, history, s) && Enabled(rule, s, step) && (step.FinishRun? || step.Restart?)
    ensures ServerInv(rule, history, Next(rule, s, step))
  {
    hide RunFits, Recorded, NextAt, Stored, Complete, Numbered;
  }

  // What a step can do to the tables

  /**
   * Chunks come only by receiving them, windows and the cursor change only by recording, one window at
   * a time and never backwards, a job is added only for the window that is recorded next, and a
   * restart leaves the tables alone and no run alive.
   */
  lemma TablesChange(rule: Rule<Frame>, s: Server, step: Step)
    requires Enabled(rule, s, step)
    ensures
      var next := Next(rule, s, step);
      && (!step.Receive? ==> next.chunks == s.chunks)
      && (!step.RecordWindow? ==> next.windows == s.windows && next.cursor == s.cursor)
      && (step.RecordWindow? ==>
            && s.windows <= next.windows <= s.windows + [s.runs[step.id].window]
            && s.cursor <= next.cursor && s.runs[step.id].window.last <= next.cursor
            && (next.cursor == s.cursor || next.cursor == s.runs[step.id].window.last))
      && (!step.EnqueueJob? ==> next.jobs == s.jobs)
      && (step.EnqueueJob? ==> next.runs[step.id].Enqueued? && next.jobs == s.jobs + {next.runs[step.id].window})
      && next.stopping == (s.stopping || step.StopSession?)
      && (step.Restart? ==> next.runs == map[])
      && (forall id | id in s.runs && !step.Restart? && !(step.FinishRun? && step.id == id) :: id in next.runs)
  {
    hide NextGroup, WindowOf, Lists, AfterReceive;
  }

  // Every window has its job

  /** A window that has been recorded, or is about to be, has been enqueued for recognition. */
  ghost predicate Queued(windows: seq<Window>, runs: map<nat, Run>, jobs: set<Window>) {
    && (forall window | window in windows :: window in jobs)
    && (forall id | id in runs && runs[id].Enqueued? :: runs[id].window in jobs)
  }

  lemma QueuedKeeps(rule: Rule<Frame>, s: Server, step: Step)
    requires Enabled(rule, s, step) && Queued(s.windows, s.runs, s.jobs)
    ensures
      var next := Next(rule, s, step);
      Queued(next.windows, next.runs, next.jobs) && s.jobs <= next.jobs
  {
    hide NextGroup, WindowOf, Lists, AfterReceive;
  }

  // What follows for the tables

  /** No gap, overlap or reorder in any reachable state. */
  lemma WindowsTileHistory(rule: Rule<Frame>, history: seq<Frame>, s: Server)
    requires ServerInv(rule, history, s)
    ensures s.cursor <= |history|
    ensures WindowPcm(s.windows) == Pcm(history[..s.cursor])
    ensures Consecutive(s.windows, 1)
    ensures forall window | window in s.windows :: Holds(window, history)
  {
    var groups := GroupsTo(rule, history, s.cursor);
    RecordedJoin(rule, history, s.cursor, s.windows, s.stopping);
    WindowsKeepPcm(groups);
    WindowsAreConsecutive(groups, 1);
    forall window | window in s.windows
      ensures Holds(window, history)
    {
      WindowsHold(groups, window);
      HoldsMore(window, history, s.cursor);
    }
  }

  lemma WindowsOfPrefix(a: seq<seq<Frame>>, b: seq<seq<Frame>>)
    requires NoneEmpty(a) && NoneEmpty(b) && a <= b
    ensures WindowsOf(a) <= WindowsOf(b)
  {
  }

  /** The windows are always the first windows of the one-shot cut, and all of them in the end. */
  lemma WindowsAreOneShot(rule: Rule<Frame>, history: seq<Frame>, s: Server)
    requires ServerInv(rule, history, s)
    ensures
      var all := if s.stopping then Sealed(rule, history) else Closed(rule, history);
      NoneEmpty(all) && s.windows <= WindowsOf(all)
    ensures s.cursor == |history| ==>
      NoneEmpty(Sealed(rule, history)) && s.windows == WindowsOf(Sealed(rule, history))
  {
    GroupsAreOneShot(rule, history, s.cursor, s.stopping);
    ClosedNoneEmpty(rule, history);
    SealedNoneEmpty(rule, history);
    hide GroupsTo, IsBoundary, Closed, Rest, Sealed, NoneEmpty;
    WindowsOfPrefix(GroupsTo(rule, history, s.cursor),
                    if s.stopping then Sealed(rule, history) else Closed(rule, history));
  }

  lemma JoinGrows<T>(parts: seq<seq<T>>, i: nat, j: nat)
    requires i <= j <= |parts|
    ensures |Flatten(parts[..i])| <= |Flatten(parts[..j])|
  {
    JoinAt(parts[..j], i);
    assert parts[..j][..i] == parts[..i];
  }

  lemma WindowsApart(groups: seq<seq<Frame>>, a: Window, b: Window)
    requires NoneEmpty(groups) && Numbered(Flatten(groups), 1)
    requires a in WindowsOf(groups) && b in WindowsOf(groups)
    ensures a == b || a.last < b.first || b.last < a.first
  {
    var i :| 0 <= i < |groups| && WindowsOf(groups)[i] == a;
    var j :| 0 <= j < |groups| && WindowsOf(groups)[j] == b;
    GroupBounds(groups, 1, i);
    GroupBounds(groups, 1, j);
    if i < j {
      JoinGrows(groups, i + 1, j);
    } else if j < i {
      JoinGrows(groups, j + 1, i);
    }
  }

  /** No two ASR jobs ever share a frame, whatever crashes and concurrent runs do. */
  lemma JobsNeverOverlap(rule: Rule<Frame>, history: seq<Frame>, s: Server, a: Window, b: Window)
    requires ServerInv(rule, history, s) && a in s.jobs && b in s.jobs
    ensures a == b || a.last < b.first || b.last < a.first
  {
    var groups := GroupsTo(rule, history, s.cursor);
    RecordedJoin(rule, history, s.cursor, s.windows, s.stopping);
    assert a in s.windows || NextAt(rule, history, s.cursor, s.stopping, a);
    assert b in s.windows || NextAt(rule, history, s.cursor, s.stopping, b);
    hide NextAt, WindowOf, IsBoundary, GroupsTo;
    if a in s.windows && b in s.windows {
      WindowsApart(groups, a, b);
    } else if a in s.windows {
      WindowEndsWithin(groups, a);
      NextBounds(rule, history, s.cursor, s.stopping, b);
    } else if b in s.windows {
      WindowEndsWithin(groups, b);
      NextBounds(rule, history, s.cursor, s.stopping, a);
    } else {
      NextIsOne(rule, history, s.cursor, s.stopping, a, b);
    }
  }

  // What a sealing run reaches

  /** The run stands where its own list stands. */
  ghost predicate Aligned(history: seq<Frame>, r: Run) {
    !r.Listed? && r.expected - 1 == |history| - |r.list| + r.index
  }

  lemma {:induction false} TailIsContiguous(list: seq<Frame>, index: nat, history: seq<Frame>)
    requires Numbered(history, 1) && |list| <= |history| && list == history[|history| - |list|..] && index <= |list|
    ensures Contiguous(list, index, |history| - |list| + index + 1) == list[index..]
    decreases |list| - index
  {
    if index < |list| {
      TailIsContiguous(list, index + 1, history);
    }
  }

  /** A sealing run in line with its list finds a next group until the list ends. */
  lemma AlignedAtEnd(rule: Rule<Frame>, history: seq<Frame>, list: seq<Frame>, index: nat)
    requires Numbered(history, 1) && |list| <= |history| && list == history[|history| - |list|..] && index <= |list|
    requires NextGroup(rule, list, true, index, |history| - |list| + index + 1).None?
    ensures index == |list|
  {
    hide Contiguous, CutAfter, Numbered;
    TailIsContiguous(list, index, history);
  }

  /** A sealing run that is aligned stops only when everything has been recorded. */
  lemma AlignedRunSealsAll(rule: Rule<Frame>, history: seq<Frame>, s: Server, id: nat)
    requires ServerInv(rule, history, s) && Enabled(rule, s, FinishRun(id))
    requires s.runs[id].seal && Aligned(history, s.runs[id])
    ensures s.cursor == |history|
    ensures NoneEmpty(Sealed(rule, history)) && s.windows == WindowsOf(Sealed(rule, history))
    ensures WindowPcm(s.windows) == Pcm(history)
  {
    hide Recorded, Stored, Complete, NextGroup, Contiguous, NoneEmpty, WindowPcm, Pcm;
    hide Closed, Rest, Sealed, WindowsOf, Holds, Follows, Consecutive, Numbered;
    var r := s.runs[id];
    assert RunFits(rule, history, s.cursor, s.stopping, r);
    AlignedAtEnd(rule, history, r.list, r.index);
    WindowsAreOneShot(rule, history, s);
    WindowsTileHistory(rule, history, s);
    assert history[..|history|] == history;
  }

  /** No step of any run takes an aligned run out of line. */
  lemma AlignmentStays(rule: Rule<Frame>, history: seq<Frame>, s: Server, step: Step, id: nat)
    requires ServerInv(rule, history, s) && Enabled(rule, s, step)
    requires id in s.runs && s.runs[id].seal && Aligned(history, s.runs[id])
    requires id in Next(rule, s, step).runs
    ensures Next(rule, s, step).runs[id].seal && Aligned(history, Next(rule, s, step).runs[id])
  {
    hide NextGroup, WindowOf, RunFits, WithWindow, AfterReceive;
  }

  /**
   * A sealing run reaches the end exactly when nothing was recorded between its two reads:
   * otherwise the cursor has moved past the head of its list and it stops at once.
   */
  lemma SealingRunStartsIff(rule: Rule<Frame>, history: seq<Frame>, s: Server, id: nat)
    requires ServerInv(rule, history, s) && Enabled(rule, s, ReadCursor(id))
    requires s.runs[id].seal && s.runs[id].list != [] && |history| - |s.runs[id].list| <= s.cursor
    ensures
      var r := Next(rule, s, ReadCursor(id)).runs[id];
      && (Aligned(history, r) <==> s.cursor == |history| - |r.list|)
      && (NextGroup(rule, r.list, r.seal, r.index, r.expected).Some? <==> s.cursor == |history| - |r.list|)
  {
    hide Recorded, Stored, Complete, JobsFit, IsBoundary, NextAt;
    assert RunFits(rule, history, s.cursor, s.stopping, s.runs[id]);
    var r := Next(rule, s, ReadCursor(id)).runs[id];
    var k := |history| - |r.list|;
    assert r.list[0] == history[k];
    if s.cursor == k {
      TailIsContiguous(r.list, 0, history);
      assert r.list[0..] == r.list;
    }
  }

  // Runs of the server

  ghost predicate Allowed(rule: Rule<Frame>, s: Server, steps: seq<Step>)
    decreases |steps|
  {
    steps == [] || (Enabled(rule, s, steps[0]) && Allowed(rule, Next(rule, s, steps[0]), steps[1..]))
  }

  ghost function After(rule: Rule<Frame>, s: Server, steps: seq<Step>): Server
    requires Allowed(rule, s, steps)
    decreases |steps|
  {
    if steps == [] then s else After(rule, Next(rule, s, steps[0]), steps[1..])
  }

  /** The flush (run 1) lists before, and reads the cursor after, run 0 records its first window. */
  function OvertakenFlush(history: seq<Frame>): seq<Step> {
    [ListChunks(0, false, history), ReadCursor(0), EnqueueJob(0), StopSession,
     ListChunks(1, true, history), RecordWindow(0), ReadCursor(1), FinishRun(1)]
  }

  lemma AllowedCons(rule: Rule<Frame>, s: Server, step: Step, rest: seq<Step>)
    requires Enabled(rule, s, step) && Allowed(rule, Next(rule, s, step), rest)
    ensures Allowed(rule, s, [step] + rest)
    ensures After(rule, s, [step] + rest) == After(rule, Next(rule, s, step), rest)
  {
    assert ([step] + rest)[1..] == rest;
  }

  lemma WholeHistoryIsListed(chunks: map<nat, Frame>, history: seq<Frame>)
    requires Stored(chunks, history) && Complete(chunks, history) && Numbered(history, 1)
    ensures Lists(history, chunks, 0)
  {
    forall n | n in chunks
      ensures chunks[n] in history
    {
      assert history[n - 1] == chunks[n];
    }
    forall i | 0 <= i < |history|
      ensures history[i].sequence in chunks && chunks[history[i].sequence] == history[i]
    {
      assert i + 1 in chunks;
    }
  }

  /** What the first run takes, and what a run finds that is a whole window late. */
  lemma FirstGroups(rule: Rule<Frame>, history: seq<Frame>)
    requires Numbered(history, 1) && FirstCut(rule, history).Some?
    ensures
      var n := FirstCut(rule, history).value;
      && NextGroup(rule, history, false, 0, 1) == Some(history[..n])
      && NextGroup(rule, history, true, 0, n + 1) == None
      && WindowOf(history[..n]).last == n
  {
    TailIsContiguous(history, 0, history);
    assert history[0..] == history;
  }

  lemma AllArrivedFits(rule: Rule<Frame>, history: seq<Frame>, s: Server)
    requires Numbered(history, 1) && Stored(s.chunks, history) && Complete(s.chunks, history)
    requires s.cursor == 0 && s.windows == [] && s.jobs == {} && s.runs == map[]
    ensures ServerInv(rule, history, s)
  {
    assert GroupsTo(rule, history, 0) == [];
  }

  lemma AllowedNil(rule: Rule<Frame>, s: Server)
    ensures Allowed(rule, s, []) && After(rule, s, []) == s
  {
  }

  /** The second half, from the moment the background run has enqueued its job. */
  lemma FlushOvertaken(rule: Rule<Frame>, history: seq<Frame>, s: Server)
    requires Numbered(history, 1) && FirstCut(rule, history).Some?
    requires Lists(history, s.chunks, 0) && history != [] && s.cursor == 0 && s.windows == []
    requires
      var n := FirstCut(rule, history).value;
      s.runs == map[0 := Enqueued(history, false, n, n + 1, WindowOf(history[..n]))]
    ensures
      var steps := OvertakenFlush(history)[3..];
      && Allowed(rule, s, steps)
      && After(rule, s, steps).stopping && 1 !in After(rule, s, steps).runs
      && After(rule, s, steps).cursor == FirstCut(rule, history).value
  {
    var n := FirstCut(rule, history).value;
    FirstGroups(rule, history);
    hide NextGroup, Lists, Allowed, After, WindowOf;
    var s4 := Next(rule, s, StopSession);
    var s5 := Next(rule, s4, ListChunks(1, true, history));
    var s6 := Next(rule, s5, RecordWindow(0));
    var s7 := Next(rule, s6, ReadCursor(1));
    assert s7.cursor == n && s7.runs[1] == Working(history, true, 0, n + 1);
    var s8 := Next(rule, s7, FinishRun(1));
    AllowedNil(rule, s8);
    AllowedCons(rule, s7, FinishRun(1), []);
    AllowedCons(rule, s6, ReadCursor(1), [FinishRun(1)]);
    AllowedCons(rule, s5, RecordWindow(0), [ReadCursor(1), FinishRun(1)]);
    AllowedCons(rule, s4, ListChunks(1, true, history), [RecordWindow(0), ReadCursor(1), FinishRun(1)]);
    AllowedCons(rule, s, StopSession, OvertakenFlush(history)[4..]);
  }

  lemma OvertakenParts(history: seq<Frame>)
    ensures
      var steps := OvertakenFlush(history);
      |steps| == 8 && steps == [ListChunks(0, false, history)] + ([ReadCursor(0)] + ([EnqueueJob(0)] + steps[3..]))
  {
  }

  /** The whole schedule, with the first half before it. */
  lemma FlushBegins(rule: Rule<Frame>, history: seq<Frame>, s: Server)
    requires Numbered(history, 1) && FirstCut(rule, history).Some?
    requires Lists(history, s.chunks, 0) && history != []
    requires s.cursor == 0 && s.windows == [] && s.runs == map[]
    ensures
      var steps := OvertakenFlush(history);
      && Allowed(rule, s, steps)
      && After(rule, s, steps).stopping && 1 !in After(rule, s, steps).runs
      && After(rule, s, steps).cursor == FirstCut(rule, history).value
  {
    var n := FirstCut(rule, history).value;
    FirstGroups(rule, history);
    OvertakenParts(history);
    hide NextGroup, Lists, Allowed, After, WindowOf, Numbered, FirstCut, OvertakenFlush;
    var s1 := Next(rule, s, ListChunks(0, false, history));
    var s2 := Next(rule, s1, ReadCursor(0));
    var s3 := Next(rule, s2, EnqueueJob(0));
    assert s3.runs == map[0 := Enqueued(history, false, n, n + 1, WindowOf(history[..n]))];
    FlushOvertaken(rule, history, s3);
    var rest := OvertakenFlush(history)[3..];
    AllowedCons(rule, s2, EnqueueJob(0), rest);
    AllowedCons(rule, s1, ReadCursor(0), [EnqueueJob(0)] + rest);
    AllowedCons(rule, s, ListChunks(0, false, history), [ReadCursor(0)] + ([EnqueueJob(0)] + rest));
  }

  /**
   * The stop flush can miss the tail. In any recording with a complete window and audio behind
   * it, let the background run record that window between the two reads of the flush: the
   * flush stops at once, the session is stopped, every frame is stored, and the audio behind
   * the window is in no window.
   */
  lemma FlushCanMissTheTail(rule: Rule<Frame>, history: seq<Frame>, s: Server)
    requires Numbered(history, 1) && FirstCut(rule, history).Some? && FirstCut(rule, history).value < |history|
    requires Stored(s.chunks, history) && Complete(s.chunks, history)
    requires s.cursor == 0 && s.windows == [] && s.jobs == {} && !s.stopping && s.runs == map[]
    ensures ServerInv(rule, history, s)
    ensures Allowed(rule, s, OvertakenFlush(history))
    ensures
      var after := After(rule, s, OvertakenFlush(history));
      && after.stopping && 1 !in after.runs
      && after.cursor == FirstCut(rule, history).value < |history|
  {
    WholeHistoryIsListed(s.chunks, history);
    AllArrivedFits(rule, history, s);
    hide ServerInv, Stored, Complete, Numbered, FirstCut, Lists;
    FlushBegins(rule, history, s);
  }
}
