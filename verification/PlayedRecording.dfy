/**
 * What is played against what was recorded. Playback lists the stored chunks by capture time and
 * then by sequence (crates/event-store/src/lib.rs, `list_session_audio_chunks`), the windows are
 * made by sequence, and the capture time is what the clock of the page shows when a frame is
 * persisted (apps/web/src/audio.ts, `queueFrame`). One source is modelled.
 */
module PlayedRecording {
  import opened Sequences
  import opened FrameCodec
  import opened Windows
  import opened Playback
  import opened Segmenter
  import opened AudioProtocol
  import opened MissedTail
  import Assembler
  import AssemblyRuns
  import Capture
  import Outbox
  import Resampler

  predicate Earlier(a: Frame, b: Frame) {
    a.capturedAtMs < b.capturedAtMs || (a.capturedAtMs == b.capturedAtMs && a.sequence < b.sequence)
  }

  ghost predicate InPlayOrder(list: seq<Frame>) {
    forall i, j | 0 <= i < j < |list| :: Earlier(list[i], list[j])
  }

  ghost predicate SameFrames(a: seq<Frame>, b: seq<Frame>) {
    forall frame: Frame :: frame in a <==> frame in b
  }

  /** The list that the store returns: every stored chunk, in the order of play. */
  ghost predicate PlayList(list: seq<Frame>, chunks: map<nat, Frame>) {
    && InPlayOrder(list)
    && (forall frame | frame in list :: frame.sequence in chunks && chunks[frame.sequence] == frame)
    && (forall n | n in chunks :: chunks[n] in list)
  }

  /** As the recording goes on the clock never goes back. */
  ghost predicate ForwardClock(history: seq<Frame>) {
    forall i, j | 0 <= i < j < |history| :: history[i].capturedAtMs <= history[j].capturedAtMs
  }

  lemma SameHead(a: seq<Frame>, b: seq<Frame>)
    requires InPlayOrder(a) && InPlayOrder(b) && SameFrames(a, b) && a != [] && b != []
    ensures a[0] == b[0]
  {
    assert a[0] in b && b[0] in a;
    var i :| 0 <= i < |a| && a[i] == b[0];
    var j :| 0 <= j < |b| && b[j] == a[0];
    assert i > 0 ==> Earlier(a[0], a[i]);
    assert j > 0 ==> Earlier(b[0], b[j]);
  }

  lemma NotInTail(list: seq<Frame>)
    requires InPlayOrder(list) && list != []
    ensures list[0] !in list[1..]
  {
    forall k | 0 <= k < |list[1..]|
      ensures list[1..][k] != list[0]
    {
      assert Earlier(list[0], list[k + 1]);
    }
  }

  lemma SameTail(a: seq<Frame>, b: seq<Frame>)
    requires InPlayOrder(a) && InPlayOrder(b) && SameFrames(a, b) && a != [] && b != [] && a[0] == b[0]
    ensures InPlayOrder(a[1..]) && InPlayOrder(b[1..]) && SameFrames(a[1..], b[1..])
  {
    forall frame: Frame
      ensures frame in a[1..] <==> frame in b[1..]
    {
      assert a == [a[0]] + a[1..] && b == [b[0]] + b[1..];
      assert frame in a <==> frame in b;
      NotInTail(a);
      NotInTail(b);
    }
  }

  lemma SameEmpty(a: seq<Frame>, b: seq<Frame>)
    requires SameFrames(a, b)
    ensures a == [] <==> b == []
  {
    if a != [] {
      assert a[0] in b;
    }
    if b != [] {
      assert b[0] in a;
    }
  }

  /** There is one such order. */
  lemma {:induction false} PlayOrderIsOne(a: seq<Frame>, b: seq<Frame>)
    requires InPlayOrder(a) && InPlayOrder(b) && SameFrames(a, b)
    ensures a == b
  {
    SameEmpty(a, b);
    if a == [] {
    } else {
      SameHead(a, b);
      SameTail(a, b);
      PlayOrderIsOne(a[1..], b[1..]);
      assert a == [a[0]] + a[1..] && b == [b[0]] + b[1..];
    }
  }

  lemma SameStored(list: seq<Frame>, chunks: map<nat, Frame>, history: seq<Frame>, frame: Frame)
    requires Numbered(history, 1)
    requires AssemblyRuns.Stored(chunks, history) && AssemblyRuns.Complete(chunks, history) && PlayList(list, chunks)
    ensures frame in list <==> frame in history
  {
    if frame in list {
      assert history[frame.sequence - 1] == frame;
    }
    if frame in history {
      var i :| 0 <= i < |history| && history[i] == frame;
      assert i + 1 in chunks && chunks[i + 1] == frame;
    }
  }

  /**
   * When everything is stored, the play list is the recording, frame by frame, exactly when the
   * clock never went back.
   */
  lemma PlayedInOrderIff(list: seq<Frame>, chunks: map<nat, Frame>, history: seq<Frame>)
    requires Numbered(history, 1)
    requires AssemblyRuns.Stored(chunks, history) && AssemblyRuns.Complete(chunks, history) && PlayList(list, chunks)
    ensures list == history <==> ForwardClock(history)
  {
    if ForwardClock(history) {
      forall frame: Frame
        ensures frame in list <==> frame in history
      {
        SameStored(list, chunks, history, frame);
      }
      PlayOrderIsOne(list, history);
    }
    if list == history {
      forall i, j | 0 <= i < j < |history|
        ensures history[i].capturedAtMs <= history[j].capturedAtMs
      {
        assert Earlier(list[i], list[j]);
      }
    }
  }

  // The bytes that are played

  /** The row of a frame, and its object. */
  function ChunkOf(frame: Frame): Chunk {
    Chunk(frame.capturedAtMs, 16_000, 1, PCM_ENCODING, |frame.pcm|, Some(frame.pcm))
  }

  function ChunksOf(frames: seq<Frame>): (chunks: seq<Chunk>)
    ensures |chunks| == |frames|
  {
    seq(|frames|, i requires 0 <= i < |frames| => ChunkOf(frames[i]))
  }

  /** Playing frames plays their audio. */
  lemma {:induction false} PlayedPcm(frames: seq<Frame>)
    ensures Recording(ChunksOf(frames)) == Pcm(frames)
  {
    if frames != [] {
      var n := |frames| - 1;
      PlayedPcm(frames[..n]);
      assert ChunksOf(frames)[..n] == ChunksOf(frames[..n]);
      assert Content(ChunkOf(frames[n])) == frames[n].pcm;
    }
  }

  // The list exists

  /** A frame put into its place. */
  function Placed(frame: Frame, list: seq<Frame>): seq<Frame> {
    if list != [] && Earlier(frame, list[|list| - 1])
    then Placed(frame, list[..|list| - 1]) + [list[|list| - 1]]
    else list + [frame]
  }

  /** The recording in the order of play. */
  function Played(history: seq<Frame>): seq<Frame> {
    if history == [] then [] else Placed(history[|history| - 1], Played(history[..|history| - 1]))
  }

  lemma {:induction false} PlacedHolds(frame: Frame, list: seq<Frame>, other: Frame)
    ensures other in Placed(frame, list) <==> other == frame || other in list
  {
    if list != [] && Earlier(frame, list[|list| - 1]) {
      var n := |list| - 1;
      PlacedHolds(frame, list[..n], other);
      assert list == list[..n] + [list[n]];
    }
  }

  lemma {:induction false} PlacedInOrder(frame: Frame, list: seq<Frame>)
    requires InPlayOrder(list) && forall i | 0 <= i < |list| :: list[i].sequence < frame.sequence
    ensures InPlayOrder(Placed(frame, list))
  {
    if list != [] && Earlier(frame, list[|list| - 1]) {
      var n := |list| - 1;
      PlacedInOrder(frame, list[..n]);
      var before := Placed(frame, list[..n]);
      forall i | 0 <= i < |before|
        ensures Earlier(before[i], list[n])
      {
        PlacedHolds(frame, list[..n], before[i]);
        assert before[i] in before;
      }
    } else {
      forall i | 0 <= i < |list|
        ensures Earlier(list[i], frame)
      {
        assert i < |list| - 1 ==> Earlier(list[i], list[|list| - 1]);
      }
    }
  }

  lemma {:induction false} PlayedIsSorted(history: seq<Frame>)
    requires Numbered(history, 1)
    ensures InPlayOrder(Played(history)) && SameFrames(Played(history), history)
  {
    if history != [] {
      var n := |history| - 1;
      var before := Played(history[..n]);
      PlayedIsSorted(history[..n]);
      assert history == history[..n] + [history[n]];
      forall i | 0 <= i < |before|
        ensures before[i].sequence < history[n].sequence
      {
        assert before[i] in history[..n];
      }
      PlacedInOrder(history[n], before);
      forall frame: Frame
        ensures frame in Played(history) <==> frame in history
      {
        PlacedHolds(history[n], before, frame);
        assert frame in before <==> frame in history[..n];
      }
    }
  }

  lemma PlayedIsPlayList(chunks: map<nat, Frame>, history: seq<Frame>)
    requires Numbered(history, 1) && AssemblyRuns.Stored(chunks, history) && AssemblyRuns.Complete(chunks, history)
    ensures PlayList(Played(history), chunks)
  {
    PlayedIsSorted(history);
    var list := Played(history);
    forall frame | frame in list
      ensures frame.sequence in chunks && chunks[frame.sequence] == frame
    {
      assert frame in history;
      var i :| 0 <= i < |history| && history[i] == frame;
      assert i + 1 in chunks;
    }
    forall n | n in chunks
      ensures chunks[n] in list
    {
      assert history[n - 1] == chunks[n] && chunks[n] in history;
    }
  }

  // Over all runs

  /**
   * Once a stopped course is acknowledged and assembled to the end, it is played frame by frame as
   * it was recorded if and only if the clock of the page never went back; and then what is played
   * is what the windows hold.
   */
  lemma PlayedIsWhatWindowsHold(rule: Rule<Frame>, actions: seq<Action>, list: seq<Frame>)
    requires IsRun(rule, Initial(), actions)
    requires
      var s := End(rule, Initial(), actions);
      && s.client.intent.StopAcknowledged? && PlayList(list, s.server.chunks)
    ensures
      var s := End(rule, Initial(), actions);
      && (list == s.client.history <==> ForwardClock(s.client.history))
      && (ForwardClock(s.client.history) && s.server.cursor == |s.client.history| ==>
           Recording(ChunksOf(list)) == WindowPcm(s.server.windows))
  {
    InitialInv(rule);
    RunKeeps(rule, Initial(), actions);
    hide Inv, PlayList, Recording, Pcm, WindowPcm, ForwardClock, IsRun, End;
    var s := End(rule, Initial(), actions);
    var history := s.client.history;
    EverythingStored(rule, s);
    PlayedInOrderIff(list, s.server.chunks, history);
    PlayedPcm(list);
    WindowsAreTheRecording(rule, actions);
    assert history[..|history|] == history;
  }

  /** Every stored chunk holds whole samples, and some. */
  ghost predicate WholeSamples(chunks: map<nat, Frame>) {
    forall n | n in chunks :: |chunks[n].pcm| > 0 && |chunks[n].pcm| % 2 == 0
  }

  lemma ReceiptKeepsSamples(chunks: map<nat, Frame>, message: seq<Byte>)
    requires WholeSamples(chunks)
    ensures WholeSamples(Assembler.AfterReceive(chunks, message))
  {
    hide FromBigEndian;
  }

  lemma {:induction false} RunKeepsSamples(rule: Rule<Frame>, s: State, actions: seq<Action>)
    requires IsRun(rule, s, actions) && WholeSamples(s.server.chunks)
    ensures WholeSamples(End(rule, s, actions).server.chunks)
    decreases |actions|
  {
    hide WholeSamples, Assembler.AfterReceive, Assembler.Receive, Outbox.Next, Outbox.Enabled;
    if actions != [] {
      match actions[0] {
        case Deliver(message) => ReceiptKeepsSamples(s.server.chunks, message);
        case _ =>
      }
      RunKeepsSamples(rule, After(rule, s, actions[0]), actions[1..]);
    }
  }

  lemma OffsetOfAll(frames: seq<Frame>)
    ensures Offset(ChunksOf(frames), |frames|) == |Pcm(frames)|
  {
    PlayedPcm(frames);
  }

  lemma SamplesArePlayable(list: seq<Frame>)
    requires list != [] && |Pcm(list)| + 36 < 0x1_0000_0000
    requires forall frame | frame in list :: |frame.pcm| > 0 && |frame.pcm| % 2 == 0
    ensures Playable(ChunksOf(list)) && forall chunk | chunk in ChunksOf(list) :: Intact(chunk)
  {
    OffsetOfAll(list);
    hide Offset, Pcm;
    forall i | 0 <= i < |list|
      ensures Supported(ChunksOf(list)[i]) && Intact(ChunksOf(list)[i])
    {
      assert list[i] in list;
    }
  }

  lemma FetchedIsRead(list: seq<Frame>)
    requires Playable(ChunksOf(list)) && (forall chunk | chunk in ChunksOf(list) :: Intact(chunk))
    requires |Pcm(list)| + 36 < 0x1_0000_0000
    ensures ReadWave(FetchedAudio(ChunksOf(list), 0)) == Some(Wave(1, 1, 16_000, 32_000, 2, 16, Pcm(list)))
  {
    var chunks := ChunksOf(list);
    CourseIsFetched(chunks, 0);
    assert WavFile(chunks)[0..] == WavFile(chunks);
    PlayedPcm(list);
    OffsetOfAll(list);
    WaveIsRead(Pcm(list));
    hide ReadWave, FetchedAudio, PcmWavHeader, Recording, Offset, Pcm, Playable, Intact, ChunksOf;
  }

  /**
   * Over all runs: what Core has stored can be played, as long as the length fields of a header can
   * name it, and a player that fetches it in parts reads the frames in the order of play.
   */
  lemma PlayedIsFetched(rule: Rule<Frame>, actions: seq<Action>, list: seq<Frame>)
    requires IsRun(rule, Initial(), actions) && PlayList(list, End(rule, Initial(), actions).server.chunks)
    requires list != [] && |Pcm(list)| + 36 < 0x1_0000_0000
    ensures Playable(ChunksOf(list))
    ensures ReadWave(FetchedAudio(ChunksOf(list), 0)) == Some(Wave(1, 1, 16_000, 32_000, 2, 16, Pcm(list)))
  {
    RunKeepsSamples(rule, Initial(), actions);
    SamplesArePlayable(list);
    hide *;
    FetchedIsRead(list);
  }

  /** The clock does not go back while so many frames are persisted. */
  ghost predicate Steady(clock: Clock, count: nat) {
    forall i, j | 0 <= i < j < count :: clock(i) <= clock(j)
  }

  lemma SteadyIsForward(history: seq<Frame>, clock: Clock)
    requires Timed(history, clock)
    ensures ForwardClock(history) <==> Steady(clock, |history|)
  {
    if ForwardClock(history) {
      forall i, j | 0 <= i < j < |history|
        ensures clock(i) <= clock(j)
      {
        assert history[i].capturedAtMs <= history[j].capturedAtMs;
      }
    }
    if Steady(clock, |history|) {
      forall i, j | 0 <= i < j < |history|
        ensures history[i].capturedAtMs <= history[j].capturedAtMs
      {
        assert clock(i) <= clock(j);
      }
    }
  }

  /**
   * No clock is excluded: for every recording and every clock there is a run that ends with all of
   * it acknowledged, and it is played in the order of the recording if and only if the clock was
   * steady.
   */
  lemma SteadyClockIff(rule: Rule<Frame>, samples: seq<real>, rate: real, clock: Clock) returns (actions: seq<Action>)
    requires rate > 0.0 && |Capture.AllFrames(Resampler.Direct(samples, rate))| < Outbox.MAX_SAFE_INTEGER
    requires IsClock(clock)
    ensures IsRun(rule, Initial(), actions)
    ensures
      var s := End(rule, Initial(), actions);
      && s.client.intent.StopAcknowledged? && PlayList(Played(s.client.history), s.server.chunks)
      && s.client.handed == Capture.AllFrames(Resampler.Direct(samples, rate))
      && |s.client.history| == |s.client.handed|
      && (Played(s.client.history) == s.client.history <==> Steady(clock, |s.client.history|))
  {
    hide Capture.AllFrames, Resampler.Direct, IsRun, End, Inv, IsClock, PlayList, Played, ForwardClock, Steady;
    actions := AllAcknowledged(rule, samples, rate, clock);
    var s := End(rule, Initial(), actions);
    EverythingStored(rule, s);
    PlayedIsPlayList(s.server.chunks, s.client.history);
    PlayedInOrderIff(Played(s.client.history), s.server.chunks, s.client.history);
    SteadyIsForward(s.client.history, clock);
  }

  lemma PcmOfTwo(a: Frame, b: Frame)
    ensures Pcm([a, b]) == a.pcm + b.pcm
  {
    assert [a, b][..1] == [a] && [a][..0] == [];
    assert Pcm([a]) == Pcm([]) + a.pcm == a.pcm;
  }

  /**
   * Two seconds between which the clock is set back are played the wrong way round; that is
   * what was recorded only if both sound the same.
   */
  lemma StepBackSwaps(a: Frame, b: Frame)
    requires a.sequence == 1 && b.sequence == 2 && b.capturedAtMs < a.capturedAtMs
    ensures Recording(ChunksOf(Played([a, b]))) == b.pcm + a.pcm
    ensures |a.pcm| == |b.pcm| ==> (Recording(ChunksOf(Played([a, b]))) == Pcm([a, b]) <==> a.pcm == b.pcm)
  {
    assert [a, b][..1] == [a] && [a][..0] == [];
    assert Played([a]) == Placed(a, Played([])) == [a];
    assert Played([a, b]) == Placed(b, [a]) == Placed(b, []) + [a] == [b, a];
    PlayedPcm([b, a]);
    PcmOfTwo(b, a);
    PcmOfTwo(a, b);
    if a.pcm + b.pcm == b.pcm + a.pcm && |a.pcm| == |b.pcm| {
      assert (a.pcm + b.pcm)[..|a.pcm|] == a.pcm && (b.pcm + a.pcm)[..|b.pcm|] == b.pcm;
    }
  }
}
