/**
 * ASR windows: when the audio collected so far makes a complete window, and what a group of
 * chunks is as a window (crates/core-server/src/audio.rs, `trailing_audio_is_silent` and the
 * records that `assemble_source` writes).
 */
module Windows {
  import opened Sequences
  import opened FrameCodec
  import opened Segmenter

  const MIN_ASR_WINDOW_BYTES: nat := PCM_BYTES_PER_SECOND * 6
  const MAX_ASR_WINDOW_BYTES: nat := PCM_BYTES_PER_SECOND * 24
  const SILENCE_LOOKBACK_BYTES: nat := PCM_BYTES_PER_SECOND * 800 / 1000
  const SILENCE_FRAME_BYTES: nat := 320 * 2
  const SILENCE_FRAME_RMS_PCM: nat := 104
  const MAX_CHUNK_BYTES: nat := MAX_FRAME_BYTES - HEADER_BYTES

  /** A stable ASR window: the chunks `first`..`last` of one source, joined. */
  datatype Window = Window(first: nat, last: nat, capturedAtMs: nat, pcm: seq<Byte>)

  function Energy(pcm: seq<Byte>): int {
    if |pcm| < 2 then 0
    else
      var sample := FromLittleEndian16(pcm[0], pcm[1]);
      sample * sample + Energy(pcm[2..])
  }

  predicate QuietFrames(pcm: seq<Byte>) {
    if pcm == [] then true
    else
      var size := if |pcm| < SILENCE_FRAME_BYTES then |pcm| else SILENCE_FRAME_BYTES;
      Energy(pcm[..size]) < SILENCE_FRAME_RMS_PCM * SILENCE_FRAME_RMS_PCM * (size / 2) && QuietFrames(pcm[size..])
  }

  predicate TrailingAudioIsSilent(pcm: seq<Byte>) {
    |pcm| >= SILENCE_LOOKBACK_BYTES && QuietFrames(pcm[|pcm| - SILENCE_LOOKBACK_BYTES..])
  }

  /** A window ends at a pause after six seconds, or at twenty-four seconds. */
  predicate Closes(pcm: seq<Byte>) {
    (|pcm| >= MIN_ASR_WINDOW_BYTES && TrailingAudioIsSilent(pcm)) || |pcm| >= MAX_ASR_WINDOW_BYTES
  }

  // When a window closes, told by the samples

  lemma EnergyOfPair(low: Byte, high: Byte)
    ensures Energy([low, high]) == FromLittleEndian16(low, high) * FromLittleEndian16(low, high)
  {
    assert [low, high][2..] == [];
  }

  lemma {:induction false} EnergyAdds(a: seq<Byte>, b: seq<Byte>)
    requires |a| % 2 == 0
    ensures Energy(a + b) == Energy(a) + Energy(b)
  {
    if a == [] {
      assert a + b == b;
    } else {
      EnergyAdds(a[2..], b);
      assert (a + b)[2..] == a[2..] + b;
    }
  }

  /** Half a sample at the end counts nothing. */
  lemma EnergyIgnoresHalf(a: seq<Byte>, half: Byte)
    requires |a| % 2 == 0
    ensures Energy(a + [half]) == Energy(a)
  {
    EnergyAdds(a, [half]);
  }

  /** A frame of 20 ms, or what is left of one, below a root mean square of 104. */
  predicate IsQuiet(frame: seq<Byte>) {
    Energy(frame) < 104 * 104 * (|frame| / 2)
  }

  function FrameAt(pcm: seq<Byte>, j: nat): (frame: seq<Byte>)
    requires 640 * j < |pcm|
  {
    pcm[640 * j..if 640 * j + 640 < |pcm| then 640 * j + 640 else |pcm|]
  }

  ghost predicate AllQuiet(pcm: seq<Byte>) {
    forall j: nat | 640 * j < |pcm| :: IsQuiet(FrameAt(pcm, j))
  }

  lemma FrameShift(pcm: seq<Byte>, j: nat)
    requires 640 * (j + 1) < |pcm|
    ensures FrameAt(pcm[640..], j) == FrameAt(pcm, j + 1)
  {
    var end := if 640 * j + 1280 < |pcm| then 640 * j + 1280 else |pcm|;
    assert pcm[640..][640 * j..end - 640] == pcm[640 * j + 640..end];
  }

  /** All frames are quiet when the first is and the others are. */
  lemma AllQuietIff(pcm: seq<Byte>)
    requires |pcm| > 640
    ensures AllQuiet(pcm) <==> IsQuiet(FrameAt(pcm, 0)) && AllQuiet(pcm[640..])
  {
    hide IsQuiet, FrameAt;
    if IsQuiet(FrameAt(pcm, 0)) && AllQuiet(pcm[640..]) {
      forall j: nat | 640 * j < |pcm|
        ensures IsQuiet(FrameAt(pcm, j))
      {
        if j > 0 {
          FrameShift(pcm, j - 1);
          assert IsQuiet(FrameAt(pcm[640..], j - 1));
        }
      }
    }
    if AllQuiet(pcm) {
      forall j: nat | 640 * j < |pcm[640..]|
        ensures IsQuiet(FrameAt(pcm[640..], j))
      {
        FrameShift(pcm, j);
        assert IsQuiet(FrameAt(pcm, j + 1));
      }
    }
  }

  lemma OneFrameQuiet(pcm: seq<Byte>)
    requires 0 < |pcm| <= 640
    ensures AllQuiet(pcm) <==> IsQuiet(pcm)
  {
    hide IsQuiet;
    assert FrameAt(pcm, 0) == pcm;
    assert forall j: nat | 640 * j < |pcm| :: j == 0;
  }

  lemma NoFrames()
    ensures AllQuiet([])
  {
  }

  lemma {:induction false} QuietFramesIff(pcm: seq<Byte>)
    ensures QuietFrames(pcm) <==> AllQuiet(pcm)
    decreases |pcm|
  {
    hide Energy, AllQuiet;
    if |pcm| > 640 {
      AllQuietIff(pcm);
      QuietFramesIff(pcm[640..]);
    } else if pcm != [] {
      OneFrameQuiet(pcm);
      assert pcm[..|pcm|] == pcm && pcm[|pcm|..] == [];
    } else {
      NoFrames();
    }
  }

  /** The last 800 ms are forty whole frames. */
  function TailFrame(pcm: seq<Byte>, j: nat): (frame: seq<Byte>)
    requires |pcm| >= 25_600 && j < 40
    ensures |frame| == 640
  {
    var from := |pcm| - 25_600 + 640 * j;
    pcm[from..from + 640]
  }

  /** At 24 seconds a window closes anyhow; from 6 seconds on, with 800 ms in which every frame is quiet. */
  lemma ClosesIff(pcm: seq<Byte>)
    ensures Closes(pcm)
       <==> || |pcm| >= 768_000
            || (|pcm| >= 192_000 && forall j: nat | j < 40 :: IsQuiet(TailFrame(pcm, j)))
  {
    if |pcm| >= 25_600 {
      hide IsQuiet, QuietFrames;
      var tail := pcm[|pcm| - 25_600..];
      QuietFramesIff(tail);
      assert forall j: nat | j < 40 :: FrameAt(tail, j) == TailFrame(pcm, j);
      assert forall j: nat | 640 * j < |tail| :: j < 40;
    }
  }

  lemma SquareBelow(x: int, limit: nat)
    ensures -(limit as int) < x < limit <==> x * x < limit * limit
  {
    var size := if x < 0 then -x else x;
    assert x * x == size * size;
    if size < limit {
      assert size * size <= size * limit <= limit * limit;
      assert size * limit < limit * limit;
    } else {
      assert size * size >= limit * size >= limit * limit;
    }
  }

  lemma {:induction false} EnergyBelow(pcm: seq<Byte>)
    requires |pcm| % 2 == 0 && forall i | 0 <= i < |pcm| / 2 :: -104 < PcmSamples(pcm)[i] < 104
    ensures 0 <= Energy(pcm) && (pcm != [] ==> Energy(pcm) < 104 * 104 * (|pcm| / 2))
    decreases |pcm|
  {
    if pcm != [] {
      var rest := pcm[2..];
      assert forall i | 0 <= i < |rest| / 2 :: PcmSamples(rest)[i] == PcmSamples(pcm)[i + 1];
      EnergyBelow(rest);
      SquareBelow(PcmSamples(pcm)[0], 104);
    }
  }

  lemma {:induction false} EnergyAbove(pcm: seq<Byte>)
    requires |pcm| % 2 == 0
    requires forall i | 0 <= i < |pcm| / 2 :: PcmSamples(pcm)[i] <= -104 || 104 <= PcmSamples(pcm)[i]
    ensures Energy(pcm) >= 104 * 104 * (|pcm| / 2)
    decreases |pcm|
  {
    if pcm != [] {
      var rest := pcm[2..];
      assert forall i | 0 <= i < |rest| / 2 :: PcmSamples(rest)[i] == PcmSamples(pcm)[i + 1];
      EnergyAbove(rest);
      SquareBelow(PcmSamples(pcm)[0], 104);
    }
  }

  ghost predicate Soft(frame: seq<Byte>) {
    |frame| % 2 == 0 && forall i | 0 <= i < |frame| / 2 :: -104 < PcmSamples(frame)[i] < 104
  }

  ghost predicate Loud(frame: seq<Byte>) {
    && |frame| % 2 == 0
    && forall i | 0 <= i < |frame| / 2 :: PcmSamples(frame)[i] <= -104 || 104 <= PcmSamples(frame)[i]
  }

  /** After six seconds, 800 ms of samples below 104 end the window. */
  lemma PauseCloses(pcm: seq<Byte>)
    requires 192_000 <= |pcm| && forall j: nat | j < 40 :: Soft(TailFrame(pcm, j))
    ensures Closes(pcm)
  {
    ClosesIff(pcm);
    hide Closes, TailFrame;
    forall j: nat | j < 40
      ensures IsQuiet(TailFrame(pcm, j))
    {
      EnergyBelow(TailFrame(pcm, j));
    }
  }

  /** Before 24 seconds, a single frame of speech in the last 800 ms keeps it open. */
  lemma SpeechKeepsOpen(pcm: seq<Byte>, j: nat)
    requires 25_600 <= |pcm| < 768_000 && j < 40 && Loud(TailFrame(pcm, j))
    ensures !Closes(pcm)
  {
    ClosesIff(pcm);
    hide Closes, TailFrame;
    EnergyAbove(TailFrame(pcm, j));
  }

  function Pcm(chunks: seq<Frame>): seq<Byte> {
    if chunks == [] then [] else Pcm(chunks[..|chunks| - 1]) + chunks[|chunks| - 1].pcm
  }

  /** The rule by which the source completes a group of chunks. */
  predicate AsrRule(group: seq<Frame>) {
    Closes(Pcm(group))
  }

  function WindowOf(group: seq<Frame>): Window
    requires group != []
  {
    Window(group[0].sequence, group[|group| - 1].sequence, group[0].capturedAtMs, Pcm(group))
  }

  function WindowsOf(groups: seq<seq<Frame>>): (windows: seq<Window>)
    requires NoneEmpty(groups)
    ensures |windows| == |groups|
    ensures forall i | 0 <= i < |groups| :: windows[i] == WindowOf(groups[i])
  {
    seq(|groups|, i requires 0 <= i < |groups| => WindowOf(groups[i]))
  }

  function WindowPcm(windows: seq<Window>): seq<Byte> {
    if windows == [] then []
    else WindowPcm(windows[..|windows| - 1]) + windows[|windows| - 1].pcm
  }

  lemma {:induction false} PcmAppend(a: seq<Frame>, b: seq<Frame>)
    ensures Pcm(a + b) == Pcm(a) + Pcm(b)
  {
    if b == [] {
      assert a + b == a;
    } else {
      var n := |b| - 1;
      assert (a + b)[..|a + b| - 1] == a + b[..n];
      PcmAppend(a, b[..n]);
      JoinAssociates(Pcm(a), Pcm(b[..n]), b[n].pcm);
    }
  }

  lemma WindowPcmSnoc(groups: seq<seq<Frame>>)
    requires NoneEmpty(groups) && groups != []
    ensures NoneEmpty(groups[..|groups| - 1])
    ensures WindowPcm(WindowsOf(groups))
         == WindowPcm(WindowsOf(groups[..|groups| - 1])) + Pcm(groups[|groups| - 1])
  {
    assert WindowsOf(groups)[..|groups| - 1] == WindowsOf(groups[..|groups| - 1]);
  }

  /** The audio of the windows is the audio of the chunks they were made from. */
  lemma {:induction false} WindowsKeepPcm(groups: seq<seq<Frame>>)
    requires NoneEmpty(groups)
    ensures WindowPcm(WindowsOf(groups)) == Pcm(Flatten(groups))
  {
    if groups != [] {
      var before, group := groups[..|groups| - 1], groups[|groups| - 1];
      WindowsKeepPcm(before);
      WindowPcmSnoc(groups);
      assert groups == before + [group];
      FlattenSnoc(before, group);
      PcmAppend(Flatten(before), group);
    }
  }

  /** Chunks are numbered one after the other, starting at `first`. */
  ghost predicate Numbered(chunks: seq<Frame>, first: nat) {
    forall i | 0 <= i < |chunks| :: chunks[i].sequence == first + i
  }

  lemma NumberedTake(chunks: seq<Frame>, n: nat)
    requires Numbered(chunks, 1) && n <= |chunks|
    ensures Numbered(chunks[..n], 1)
  {
  }

  ghost predicate Follows(windows: seq<Window>, first: nat, i: nat)
    requires i < |windows|
  {
    && windows[i].first == (if i == 0 then first else windows[i - 1].last + 1)
    && windows[i].first <= windows[i].last
  }

  /** Window bounds follow on from each other, from `first`, without gap or overlap. */
  ghost predicate Consecutive(windows: seq<Window>, first: nat) {
    forall i {:trigger Follows(windows, first, i)} | 0 <= i < |windows| :: Follows(windows, first, i)
  }

  /** The bounds of group `i` in a recording numbered from `first`. */
  lemma GroupBounds(groups: seq<seq<Frame>>, first: nat, i: nat)
    requires NoneEmpty(groups) && Numbered(Flatten(groups), first) && i < |groups|
    ensures |Flatten(groups[..i])| < |Flatten(groups[..i + 1])| <= |Flatten(groups)|
    ensures WindowOf(groups[i]).first == first + |Flatten(groups[..i])|
    ensures WindowOf(groups[i]).last + 1 == first + |Flatten(groups[..i + 1])|
  {
    PartPlace(groups, i);
    var all, from, to := Flatten(groups), |Flatten(groups[..i])|, |Flatten(groups[..i + 1])|;
    assert groups[i] in groups;
    assert groups[i] == all[from..to];
    assert groups[i][0] == all[from] && groups[i][|groups[i]| - 1] == all[to - 1];
  }

  /** Windows made from whole groups of numbered chunks have consecutive bounds. */
  lemma WindowsAreConsecutive(groups: seq<seq<Frame>>, first: nat)
    requires NoneEmpty(groups) && Numbered(Flatten(groups), first)
    ensures Consecutive(WindowsOf(groups), first)
  {
    forall i: nat {:trigger Follows(WindowsOf(groups), first, i)} | i < |groups|
      ensures Follows(WindowsOf(groups), first, i)
    {
      GroupBounds(groups, first, i);
      if i > 0 {
        GroupBounds(groups, first, i - 1);
      } else {
        assert groups[..0] == [];
      }
    }
  }

  /** The window holds the chunks that its bounds name, and began when the first of them was captured. */
  ghost predicate Holds(window: Window, recording: seq<Frame>) {
    && 1 <= window.first <= window.last <= |recording|
    && window.pcm == Pcm(recording[window.first - 1..window.last])
    && window.capturedAtMs == recording[window.first - 1].capturedAtMs
  }

  lemma WindowsHold(groups: seq<seq<Frame>>, window: Window)
    requires NoneEmpty(groups) && Numbered(Flatten(groups), 1) && window in WindowsOf(groups)
    ensures Holds(window, Flatten(groups))
  {
    var i :| 0 <= i < |groups| && WindowsOf(groups)[i] == window;
    GroupBounds(groups, 1, i);
    PartPlace(groups, i);
    assert groups[i] == Flatten(groups)[window.first - 1..window.last];
  }

  lemma HoldsMore(window: Window, recording: seq<Frame>, n: nat)
    requires n <= |recording| && Holds(window, recording[..n])
    ensures Holds(window, recording)
  {
    assert recording[..n][window.first - 1..window.last] == recording[window.first - 1..window.last];
  }

  /** A window made from numbered chunks ends inside them. */
  lemma WindowEndsWithin(groups: seq<seq<Frame>>, window: Window)
    requires NoneEmpty(groups) && Numbered(Flatten(groups), 1) && window in WindowsOf(groups)
    ensures 1 <= window.first <= window.last <= |Flatten(groups)|
  {
    var i :| 0 <= i < |groups| && WindowsOf(groups)[i] == window;
    GroupBounds(groups, 1, i);
  }

  /** Under the rule of the source a complete window is at least six seconds and under twenty-seven. */
  lemma {:induction false} WindowSize(chunks: seq<Frame>, group: seq<Frame>)
    requires group in Closed(AsrRule, chunks)
    requires forall chunk | chunk in chunks :: |chunk.pcm| <= MAX_CHUNK_BYTES
    ensures 192_000 <= |Pcm(group)| < 768_000 + 96_000
    decreases |chunks|
  {
    var end := FirstCut(AsrRule, chunks).value;
    if group == chunks[..end] {
      CutIsFirst(AsrRule, chunks, 0, end);
      assert AsrRule(chunks[..end]);
      assert chunks[..end][..end - 1] == chunks[..end - 1];
      assert chunks[end - 1] in chunks;
      if end > 1 {
        CutIsFirst(AsrRule, chunks, 0, end - 1);
        assert !AsrRule(chunks[..end - 1]);
      }
    } else {
      WindowSize(chunks[end..], group);
    }
  }
}
