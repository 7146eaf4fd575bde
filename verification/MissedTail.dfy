/**
 * The stop flush that misses the tail, from the first sample on: for every recording of more than
 * twenty-four seconds there is a run of the whole path that ends with all audio acknowledged, the
 * session stopped, the flush finished, and audio that is in no window.
 */
module MissedTail {
  import opened Sequences
  import opened FrameCodec
  import opened Segmenter
  import opened Windows
  import opened Outbox
  import opened AudioProtocol
  import opened AudioRecovery
  import AssemblyRuns
  import Capture
  import Resampler

  /** The page has been stopped while recording; its frames wait in the write chain. */
  ghost predicate Stopped(c: Client) {
    && c.phase.Draining? && c.intent.StopPending? && c.saved.None? && c.whole && c.base == 0
  }

  lemma WholeQueue(rule: Rule<Frame>, s: State)
    requires Inv(rule, s) && s.client.whole && s.client.base == 0 && s.client.history == []
    ensures s.client.rate > 0.0
    ensures s.client.queue == s.client.handed
    ensures s.client.handed == Capture.AllFrames(Resampler.Direct(s.client.accepted, s.client.rate))
  {
    hide Capture.AllFrames, Resampler.Direct, AssemblyRuns.ServerInv;
  }

  /** One block of any length is recorded, and the page stopped. */
  lemma RecordAndStop(rule: Rule<Frame>, samples: seq<real>, rate: real) returns (actions: seq<Action>)
    requires rate > 0.0
    ensures IsRun(rule, Initial(), actions)
    ensures
      var s := End(rule, Initial(), actions);
      && Stopped(s.client) && s.client.history == [] && s.server == Initial().server
      && s.client.accepted == samples && s.client.rate == rate
      && s.client.queue == s.client.handed == Capture.AllFrames(Resampler.Direct(samples, rate))
  {
    hide Capture.Frames, Capture.AllFrames, Resampler.Direct, Resampler.Pushed, ClientInv, IsRun, End, Inv;
    var s1 := After(rule, Initial(), Page(Activate([], rate)));
    One(rule, Initial(), Page(Activate([], rate)));
    var s2 := After(rule, s1, Page(AcceptBlock(samples)));
    One(rule, s1, Page(AcceptBlock(samples)));
    var s3 := After(rule, s2, Page(Stop));
    One(rule, s2, Page(Stop));
    Then(rule, Initial(), [Page(Activate([], rate))], [Page(AcceptBlock(samples))]);
    actions := [Page(Activate([], rate))] + [Page(AcceptBlock(samples))];
    Then(rule, Initial(), actions, [Page(Stop)]);
    actions := actions + [Page(Stop)];
    InitialInv(rule);
    RunKeeps(rule, Initial(), actions);
    assert [] + samples == samples;
    WholeQueue(rule, s3);
  }

  /** What the clock of the page shows when frame `i` is persisted. */
  type Clock = nat -> nat

  ghost predicate Timed(history: seq<Frame>, clock: Clock) {
    forall i | 0 <= i < |history| :: history[i].capturedAtMs == clock(i)
  }

  ghost predicate IsClock(clock: Clock) {
    forall i: nat :: clock(i) <= MAX_SAFE_INTEGER
  }

  /** The next frame of the write chain is persisted and published. */
  lemma SaveOne(rule: Rule<Frame>, s: State, clock: Clock) returns (actions: seq<Action>)
    requires Inv(rule, s) && Stopped(s.client) && s.client.queue != [] && |s.client.history| + 1 < MAX_SAFE_INTEGER
    requires IsClock(clock) && Timed(s.client.history, clock)
    ensures IsRun(rule, s, actions)
    ensures
      var later := End(rule, s, actions);
      && Stopped(later.client) && later.client.queue == s.client.queue[1..]
      && |later.client.history| == |s.client.history| + 1 && later.client.handed == s.client.handed
      && later.server == s.server && Timed(later.client.history, clock)
  {
    assert s.client.sequence == |s.client.history| + 1 by { hide AssemblyRuns.ServerInv; }
    hide Inv, IsRun, End, FrameBytes, PcmBytes;
    var now := clock(|s.client.history|);
    Two(rule, s, Page(Save(now)), Page(Publish));
    actions := [Page(Save(now)), Page(Publish)];
  }

  lemma {:induction false} SaveAll(rule: Rule<Frame>, s: State, clock: Clock) returns (actions: seq<Action>)
    requires Inv(rule, s) && Stopped(s.client) && |s.client.history| + |s.client.queue| < MAX_SAFE_INTEGER
    requires IsClock(clock) && Timed(s.client.history, clock)
    ensures IsRun(rule, s, actions)
    ensures
      var later := End(rule, s, actions);
      && Stopped(later.client) && later.client.queue == []
      && |later.client.history| == |s.client.history| + |s.client.queue| && later.client.handed == s.client.handed
      && later.server == s.server && Timed(later.client.history, clock)
    decreases |s.client.queue|
  {
    hide Inv, IsRun, End, IsClock, Timed;
    if s.client.queue == [] {
      actions := Nothing(rule, s);
    } else {
      var first := SaveOne(rule, s, clock);
      RunKeeps(rule, s, first);
      var rest := SaveAll(rule, End(rule, s, first), clock);
      Then(rule, s, first, rest);
      actions := first + rest;
    }
  }

  /** A step of Core as an action of the whole path. */
  function Lifted(step: AssemblyRuns.Step): Action {
    if step.StopSession? then StopSession else Core(step)
  }

  function AllLifted(steps: seq<AssemblyRuns.Step>): (actions: seq<Action>)
    ensures |actions| == |steps|
  {
    seq(|steps|, i requires 0 <= i < |steps| => Lifted(steps[i]))
  }

  lemma {:induction false} LiftedRun(rule: Rule<Frame>, s: State, steps: seq<AssemblyRuns.Step>)
    requires AssemblyRuns.Allowed(rule, s.server, steps) && s.client.intent.StopAcknowledged?
    requires forall i | 0 <= i < |steps| :: !steps[i].Receive?
    ensures IsRun(rule, s, AllLifted(steps))
    ensures End(rule, s, AllLifted(steps)) == s.(server := AssemblyRuns.After(rule, s.server, steps))
    decreases |steps|
  {
    hide AssemblyRuns.Enabled, AssemblyRuns.Next;
    if steps != [] {
      var action := Lifted(steps[0]);
      assert Allowed(rule, s, action);
      assert After(rule, s, action) == s.(server := AssemblyRuns.Next(rule, s.server, steps[0]));
      LiftedRun(rule, After(rule, s, action), steps[1..]);
      One(rule, s, action);
      Then(rule, s, [action], AllLifted(steps[1..]));
      assert AllLifted(steps) == [action] + AllLifted(steps[1..]);
    }
  }

  /** Everything is acknowledged and the page has returned; Core has stored and done nothing else. */
  lemma AllAcknowledged(rule: Rule<Frame>, samples: seq<real>, rate: real, clock: Clock) returns (actions: seq<Action>)
    requires rate > 0.0 && |Capture.AllFrames(Resampler.Direct(samples, rate))| < MAX_SAFE_INTEGER
    requires IsClock(clock)
    ensures IsRun(rule, Initial(), actions)
    ensures
      var s := End(rule, Initial(), actions);
      && Inv(rule, s) && s.client.intent.StopAcknowledged?
      && s.client.base == 0 && s.client.queue == []
      && s.client.handed == Capture.AllFrames(Resampler.Direct(samples, rate))
      && |s.client.history| == |s.client.handed| && Timed(s.client.history, clock)
      && s.server == Initial().server.(chunks := s.server.chunks)
  {
    hide Capture.AllFrames, Resampler.Direct, IsRun, End, Inv, IsClock;
    var record := RecordAndStop(rule, samples, rate);
    var s1 := End(rule, Initial(), record);
    InitialInv(rule);
    RunKeeps(rule, Initial(), record);
    var save := SaveAll(rule, s1, clock);
    var s2 := End(rule, s1, save);
    RunKeeps(rule, s1, save);
    var drain := Drain(rule, s2);
    var s3 := End(rule, s2, drain);
    RunKeeps(rule, s2, drain);
    var done := Return(rule, s3);
    var s4 := End(rule, s3, done);
    RunKeeps(rule, s3, done);
    Then(rule, Initial(), record, save);
    Then(rule, Initial(), record + save, drain);
    Then(rule, Initial(), record + save + drain, done);
    actions := record + save + drain + done;
  }

  /** The first seconds of the history are whole seconds of audio. */
  lemma {:induction false} SecondsOfPcm(history: seq<Frame>, k: nat)
    requires k <= |history| && forall i | 0 <= i < k :: |history[i].pcm| == PCM_BYTES_PER_SECOND
    ensures |Pcm(history[..k])| == PCM_BYTES_PER_SECOND * k
  {
    if k > 0 {
      SecondsOfPcm(history, k - 1);
      assert history[..k][..k - 1] == history[..k - 1];
    }
  }

  /** A recording that goes on after its first twenty-four seconds is cut by then. */
  lemma CutByTwentyFour(history: seq<Frame>)
    requires |history| > 24 && forall i | 0 <= i < 24 :: |history[i].pcm| == PCM_BYTES_PER_SECOND
    ensures FirstCut(AsrRule, history).Some? && FirstCut(AsrRule, history).value < |history|
  {
    SecondsOfPcm(history, 24);
    assert AsrRule(history[..24]);
    CutIsFirst(AsrRule, history, 0, 24);
  }

  lemma {:induction false} FramesHold(frames: seq<seq<real>>)
    requires Capture.FrameSizes(frames)
    ensures |Flatten(frames)| <= FRAME_SAMPLES * |frames|
  {
    if frames == [] {
    } else {
      forall i | 0 <= i < |frames[1..]|
        ensures frames[1..][i] == frames[i + 1]
      {
      }
      FramesHold(frames[1..]);
    }
  }

  /** More than twenty-four seconds of samples are more than twenty-four frames, the first of them full. */
  lemma LongRecording(frames: seq<seq<real>>, stream: seq<real>)
    requires frames == Capture.AllFrames(stream) && |stream| > 24 * FRAME_SAMPLES
    ensures |frames| > 24 && forall i | 0 <= i < 24 :: |frames[i]| == FRAME_SAMPLES
  {
    hide Capture.AllFrames, Flatten;
    Capture.AllFramesFit(stream);
    FramesHold(frames);
  }

  /** What the page has persisted is what it handed over. */
  lemma PersistedSeconds(rule: Rule<Frame>, s: State)
    requires Inv(rule, s) && s.client.base == 0 && |s.client.history| == |s.client.handed| > 24
    requires forall i | 0 <= i < 24 :: |s.client.handed[i]| == FRAME_SAMPLES
    ensures forall i | 0 <= i < 24 :: |s.client.history[i].pcm| == PCM_BYTES_PER_SECOND
  {
    hide AssemblyRuns.ServerInv, Carries, CarriesAll, Covered, PageKnows, WriterFits, InputFits, IntentFits;
    forall i | 0 <= i < 24
      ensures |s.client.history[i].pcm| == PCM_BYTES_PER_SECOND
    {
      assert s.client.history[i].pcm == PcmBytes(s.client.handed[i - s.client.base]);
    }
  }

  /** Core holds every frame of an acknowledged recording. */
  lemma EverythingStored(rule: Rule<Frame>, s: State)
    requires Inv(rule, s) && s.client.intent.StopAcknowledged?
    ensures Numbered(s.client.history, 1)
    ensures AssemblyRuns.Stored(s.server.chunks, s.client.history)
    ensures AssemblyRuns.Complete(s.server.chunks, s.client.history)
  {
    hide Carries, CarriesAll, Covered, PageKnows, WriterFits, InputFits, RecordingFits, Committed;
    hide AssemblyRuns.Recorded, AssemblyRuns.JobsFit, AssemblyRuns.RunsFit;
  }

  /** What is stored stays stored. */
  lemma StillComplete(rule: Rule<Frame>, s: State, actions: seq<Action>)
    requires Inv(rule, s) && IsRun(rule, s, actions) && AssemblyRuns.Complete(s.server.chunks, s.client.history)
    ensures AssemblyRuns.Complete(End(rule, s, actions).server.chunks, s.client.history)
  {
    hide Inv, IsRun, End;
    RunGrows(rule, s, actions);
  }

  /** The stop of the session and the overtaken flush, as actions of the whole path. */
  function Overtaken(history: seq<Frame>): seq<Action> {
    AllLifted(AssemblyRuns.OvertakenFlush(history))
  }

  /**
   * Every recording of more than twenty-four seconds can lose its tail to the race, whatever the
   * clock shows. First all its audio is acknowledged and nothing is assembled. Then the sealing run
   * (run 1 of `Overtaken`) lists the whole recording, run 0 records its window, and the sealing run
   * reads the cursor and finishes: the session is stopped, and audio is left behind the last
   * window.
   */
  lemma FlushMissesTheTail(samples: seq<real>, rate: real, clock: Clock) returns (before: seq<Action>)
    requires rate > 0.0 && |Resampler.Direct(samples, rate)| > 24 * FRAME_SAMPLES
    requires |Capture.AllFrames(Resampler.Direct(samples, rate))| < MAX_SAFE_INTEGER && IsClock(clock)
    ensures IsRun(AsrRule, Initial(), before)
    ensures
      var s := End(AsrRule, Initial(), before);
      && s.client.intent.StopAcknowledged? && !s.server.stopping
      && s.server == Initial().server.(chunks := s.server.chunks)
      && s.client.handed == Capture.AllFrames(Resampler.Direct(samples, rate))
      && |s.client.history| == |s.client.handed|
      && AssemblyRuns.Complete(s.server.chunks, s.client.history)
    ensures
      var history := End(AsrRule, Initial(), before).client.history;
      && IsRun(AsrRule, Initial(), before + Overtaken(history))
      && var s := End(AsrRule, Initial(), before + Overtaken(history));
         && s.client.history == history && AssemblyRuns.Complete(s.server.chunks, history)
         && s.server.stopping && 1 !in s.server.runs
         && 0 < s.server.cursor < |history|
  {
    hide Capture.AllFrames, Resampler.Direct, IsRun, End, Inv, AsrRule, FirstCut;
    hide AssemblyRuns.After, AssemblyRuns.Allowed, AssemblyRuns.Stored, AssemblyRuns.Complete, AssemblyRuns.ServerInv;
    before := AllAcknowledged(AsrRule, samples, rate, clock);
    var s := End(AsrRule, Initial(), before);
    var history := s.client.history;
    LongRecording(s.client.handed, Resampler.Direct(samples, rate));
    PersistedSeconds(AsrRule, s);
    EverythingStored(AsrRule, s);
    CutByTwentyFour(history);
    AssemblyRuns.FlushCanMissTheTail(AsrRule, history, s.server);
    LiftedRun(AsrRule, s, AssemblyRuns.OvertakenFlush(history));
    Then(AsrRule, Initial(), before, Overtaken(history));
    StillComplete(AsrRule, s, Overtaken(history));
  }

  /** What the flush does in this schedule: it begins, reads after run 0 has recorded, and finishes. */
  lemma OvertakenIsAFlush(history: seq<Frame>)
    ensures Overtaken(history) == [
      Core(AssemblyRuns.ListChunks(0, false, history)), Core(AssemblyRuns.ReadCursor(0)),
      Core(AssemblyRuns.EnqueueJob(0)), StopSession,
      Core(AssemblyRuns.ListChunks(1, true, history)), Core(AssemblyRuns.RecordWindow(0)),
      Core(AssemblyRuns.ReadCursor(1)), Core(AssemblyRuns.FinishRun(1))]
  {
  }
}
