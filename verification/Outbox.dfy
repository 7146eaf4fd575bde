/**
 * The recording page and its durable outbox (apps/web/src/audio.ts, `BrowserCapture`;
 * apps/web/src/recordingStop.ts and the `stop` handler of apps/web/src/App.tsx).
 *
 * The outbox, the next sequence number and the stop intent survive a refresh; everything else
 * is lost with the page. The network may lose, repeat, reorder and delay what is sent: a
 * message once sent stays deliverable for ever, and nothing forces its delivery.
 */
module Outbox {
  import opened Sequences
  import opened FrameCodec
  import opened Windows
  import Capture
  import Resampler

  const MAX_IN_FLIGHT_FRAMES: nat := 8
  const MAX_SAFE_INTEGER: nat := 0x1F_FFFF_FFFF_FFFF

  /** What the page does; `Draining` covers both `stop` and `finishPending`. */
  datatype Phase = Absent | Recording | Revoked | Draining | Finished

  datatype Intent = NoIntent | StopPending | StopAcknowledged

  datatype Client = Client(
    // Durable
    outbox: map<nat, seq<Byte>>,
    next: Option<nat>,
    intent: Intent,
    // The page
    phase: Phase,
    sequence: nat,
    queue: seq<seq<real>>,
    saved: Option<seq<Byte>>,
    pending: map<nat, seq<Byte>>,
    inFlight: set<nat>,
    deletes: set<nat>,
    online: bool,
    // The network
    net: set<seq<Byte>>,
    acks: set<nat>,
    // The sample rate of the page's input.
    rate: real,
    // What has happened: every frame ever persisted, how many were there when the page was
    // activated, the samples it has accepted since, the frames it has handed to its write chain
    // for them, and whether these are all of the recording: cut, flushed, and none lost since.
    history: seq<Frame>,
    base: nat,
    accepted: seq<real>,
    handed: seq<seq<real>>,
    whole: bool)

  datatype Step =
    | Activate(stored: seq<nat>, rate: real)
    // The worklet delivers a block of any length.
    | AcceptBlock(block: seq<real>)
    | Save(capturedAtMs: nat)
    | Publish
    | Connect
    | Disconnect
    | Send(order: seq<nat>)
    | ReceiveAck(sequence: nat)
    | DeleteStored(sequence: nat)
    | Revoke
    | Stop
    | FinishPending
    | StopReturns
    | Refresh

  /** The maximum of `least` and the successors of `numbers`. */
  function Above(numbers: seq<nat>, least: nat): nat {
    if numbers == [] then least
    else
      var rest := Above(numbers[1..], least);
      if numbers[0] >= rest then numbers[0] + 1 else rest
  }

  lemma {:induction false} AboveAll(numbers: seq<nat>, least: nat)
    ensures Above(numbers, least) >= least
    ensures forall n | n in numbers :: n < Above(numbers, least)
    ensures Above(numbers, least) == least || (Above(numbers, least) > 0 && Above(numbers, least) - 1 in numbers)
  {
    if numbers != [] {
      AboveAll(numbers[1..], least);
      forall n | n in numbers
        ensures n < Above(numbers, least)
      {
        assert n == numbers[0] || n in numbers[1..];
      }
    }
  }

  /** The number the page goes on from; an unusable stored value counts as absent. */
  function RecoverNextSequence(persisted: Option<nat>, pending: seq<nat>): nat {
    Above(pending, if persisted.Some? && 1 <= persisted.value <= MAX_SAFE_INTEGER then persisted.value else 1)
  }

  /** It is the stored number or the one behind a pending frame, and below nothing that is pending. */
  lemma RecoverIs(persisted: Option<nat>, pending: seq<nat>)
    ensures
      var next := RecoverNextSequence(persisted, pending);
      var least := if persisted.Some? && 1 <= persisted.value <= 9_007_199_254_740_991 then persisted.value else 1;
      && least <= next
      && (forall n | n in pending :: n < next)
      && (next == least || (next > 0 && next - 1 in pending))
  {
    AboveAll(pending, if persisted.Some? && 1 <= persisted.value <= MAX_SAFE_INTEGER then persisted.value else 1);
  }

  function Insert(n: nat, sorted: seq<nat>): seq<nat> {
    if sorted == [] || n <= sorted[0] then [n] + sorted else [sorted[0]] + Insert(n, sorted[1..])
  }

  /** The pending numbers that are not in flight, in increasing order. */
  function Waiting(pending: seq<nat>, inFlight: set<nat>): seq<nat> {
    if pending == [] then []
    else if pending[0] in inFlight then Waiting(pending[1..], inFlight)
    else Insert(pending[0], Waiting(pending[1..], inFlight))
  }

  function NextFramesToSend(pending: seq<nat>, inFlight: set<nat>): seq<nat> {
    var waiting := Waiting(pending, inFlight);
    var available := if |inFlight| < MAX_IN_FLIGHT_FRAMES then MAX_IN_FLIGHT_FRAMES - |inFlight| else 0;
    if |waiting| <= available then waiting else waiting[..available]
  }

  predicate Ascending(numbers: seq<nat>) {
    numbers == [] || ((forall n | n in numbers[1..] :: numbers[0] <= n) && Ascending(numbers[1..]))
  }

  lemma {:induction false} InsertFits(n: nat, sorted: seq<nat>)
    requires Ascending(sorted)
    ensures Ascending(Insert(n, sorted)) && |Insert(n, sorted)| == |sorted| + 1
    ensures forall k :: k in Insert(n, sorted) <==> k == n || k in sorted
  {
    if sorted == [] || n <= sorted[0] {
      assert ([n] + sorted)[1..] == sorted;
      forall k | k in sorted
        ensures n <= k
      {
        assert k == sorted[0] || k in sorted[1..];
      }
    } else {
      InsertFits(n, sorted[1..]);
      assert sorted == [sorted[0]] + sorted[1..];
      assert ([sorted[0]] + Insert(n, sorted[1..]))[1..] == Insert(n, sorted[1..]);
    }
  }

  lemma {:induction false} WaitingFits(pending: seq<nat>, inFlight: set<nat>)
    ensures Ascending(Waiting(pending, inFlight))
    ensures forall n :: n in Waiting(pending, inFlight) <==> n in pending && n !in inFlight
  {
    if pending != [] {
      WaitingFits(pending[1..], inFlight);
      assert pending == [pending[0]] + pending[1..];
      if pending[0] !in inFlight {
        InsertFits(pending[0], Waiting(pending[1..], inFlight));
      }
    }
  }

  lemma {:induction false} AscendingSplit(numbers: seq<nat>, k: nat, early: nat, late: nat)
    requires Ascending(numbers) && k <= |numbers| && early in numbers[..k] && late in numbers[k..]
    ensures early <= late
  {
    if early == numbers[0] {
      assert late in numbers[1..] || k == 0;
    } else {
      assert numbers[..k][1..] == numbers[1..][..k - 1] && numbers[1..][k - 1..] == numbers[k..];
      AscendingSplit(numbers[1..], k - 1, early, late);
    }
  }

  /**
   * What is sent is pending, not in flight, never more than the room left, and nothing that
   * has to wait is older than anything sent; nothing waits while there is room.
   */
  lemma NextFramesFit(pending: seq<nat>, inFlight: set<nat>)
    ensures
      var frames := NextFramesToSend(pending, inFlight);
      && (forall n | n in frames :: n in pending && n !in inFlight)
      && |frames| + |inFlight| <= (if |inFlight| < 8 then 8 else |inFlight|)
      && (forall n, m | n in pending && n !in inFlight && n !in frames && m in frames :: m <= n)
      && (|frames| + |inFlight| < 8 ==> forall n | n in pending && n !in inFlight :: n in frames)
  {
    var frames := NextFramesToSend(pending, inFlight);
    var waiting := Waiting(pending, inFlight);
    WaitingFits(pending, inFlight);
    assert frames == waiting[..|frames|];
    assert waiting == frames + waiting[|frames|..];
    forall n, m | n in pending && n !in inFlight && n !in frames && m in frames
      ensures m <= n
    {
      AscendingSplit(waiting, |frames|, m, n);
    }
  }

  // The steps

  ghost predicate Enumerates(order: seq<nat>, frames: map<nat, seq<Byte>>) {
    && (forall n :: n in order <==> n in frames)
    && (forall i, j | 0 <= i < j < |order| :: order[i] != order[j])
  }

  ghost predicate Framed(frames: seq<seq<real>>) {
    forall i | 0 <= i < |frames| :: 1 <= |frames[i]| <= FRAME_SAMPLES
  }

  ghost predicate Enabled(c: Client, step: Step) {
    match step
    case Activate(stored, rate) => c.phase.Absent? && c.intent.NoIntent? && Enumerates(stored, c.outbox) && rate > 0.0
    case AcceptBlock(_) => c.phase.Recording? && c.rate > 0.0
    case Save(capturedAtMs) =>
      c.queue != [] && c.saved.None? && c.sequence < MAX_SAFE_INTEGER && capturedAtMs <= MAX_SAFE_INTEGER
    case Publish => c.saved.Some?
    case Connect => c.phase.Recording? || c.phase.Draining?
    case Disconnect => true
    case Send(order) => c.online && (c.phase.Recording? || c.phase.Draining?) && Enumerates(order, c.pending)
    case ReceiveAck(n) => n in c.acks && (c.phase.Recording? || c.phase.Draining?)
    case DeleteStored(n) => n in c.deletes
    case Revoke => c.phase.Recording?
    case Stop => (c.phase.Recording? || c.phase.Revoked?) && c.intent.NoIntent? && c.rate > 0.0
    case FinishPending =>
      c.intent.StopPending? && !c.phase.Recording? && c.queue == [] && c.saved.None?
    case StopReturns =>
      c.phase.Draining? && c.intent.StopPending? && c.queue == [] && c.saved.None? && c.pending == map[]
    case Refresh => true
  }

  /** The bytes that `queueFrame` writes. */
  function Written(c: Client, capturedAtMs: nat): seq<Byte>
    requires c.queue != []
  {
    FrameBytes(c.sequence, capturedAtMs, c.queue[0])
  }

  function Messages(order: seq<nat>, frames: map<nat, seq<Byte>>): set<seq<Byte>> {
    set n | n in order && n in frames :: frames[n]
  }

  function Numbers(order: seq<nat>): set<nat> {
    set n | n in order
  }

  /** What a page that has just been loaded knows. */
  function Reloaded(c: Client): Client {
    c.(phase := Absent, sequence := 1, queue := [], saved := None, pending := map[], inFlight := {}, deletes := {},
       online := false, whole := c.whole && c.queue == [],
       handed := if |c.history| - c.base <= |c.handed| && c.base <= |c.history|
                 then c.handed[..|c.history| - c.base] else c.handed)
  }

  /** The frames of `all` that have not been handed over yet. */
  function NotYetHanded(handed: seq<seq<real>>, all: seq<seq<real>>): seq<seq<real>> {
    if |handed| <= |all| then all[|handed|..] else []
  }

  /** More frames go to the write chain. */
  function HandOver(c: Client, frames: seq<seq<real>>): Client {
    c.(queue := c.queue + NotYetHanded(c.handed, frames), handed := c.handed + NotYetHanded(c.handed, frames))
  }

  /** What a stop leaves handed over. A revoked page has no resampler any more that it could flush. */
  function StopFrames(recording: bool, accepted: seq<real>, rate: real): seq<seq<real>>
    requires rate > 0.0
  {
    Capture.AllFrames(if recording then Resampler.Direct(accepted, rate) else Resampler.Pushed(accepted, rate))
  }

  function Next(c: Client, step: Step): Client
    requires Enabled(c, step)
  {
    match step
    case Activate(stored, rate) =>
      c.(phase := Recording, sequence := RecoverNextSequence(c.next, stored), pending := c.outbox,
         base := |c.history|, rate := rate, accepted := [], handed := [], whole := false)
    case AcceptBlock(block) =>
      HandOver(c, Capture.Frames(Resampler.Pushed(c.accepted + block, c.rate))).(accepted := c.accepted + block)
    case Save(capturedAtMs) =>
      var bytes := Written(c, capturedAtMs);
      c.(outbox := c.outbox[c.sequence := bytes], next := Some(c.sequence + 1), saved := Some(bytes),
         queue := c.queue[1..],
         history := c.history + [Frame(c.sequence, capturedAtMs, PcmBytes(c.queue[0]))])
    case Publish =>
      c.(saved := None, pending := c.pending[c.sequence := c.saved.value], sequence := c.sequence + 1)
    case Connect => c.(online := true, inFlight := {})
    case Disconnect => c.(online := false, inFlight := {})
    case Send(order) =>
      var frames := NextFramesToSend(order, c.inFlight);
      c.(net := c.net + Messages(frames, c.pending), inFlight := c.inFlight + Numbers(frames))
    case ReceiveAck(n) =>
      c.(inFlight := c.inFlight - {n}, pending := c.pending - {n}, deletes := c.deletes + {n})
    case DeleteStored(n) => c.(outbox := c.outbox - {n}, deletes := c.deletes - {n})
    case Revoke => c.(phase := Revoked, online := false)
    case Stop =>
      HandOver(c, StopFrames(c.phase.Recording?, c.accepted, c.rate)).(
        phase := if c.phase.Recording? then Draining else Revoked, intent := StopPending, whole := c.phase.Recording?)
    case FinishPending => c.(phase := Draining, pending := c.outbox, inFlight := {}, online := false)
    case StopReturns => c.(phase := Finished, intent := StopAcknowledged, online := false)
    case Refresh => Reloaded(c)
  }

  // What a step can do to the page, field by field

  /** What survives a refresh changes by saving, by deleting one acknowledged frame and by a stop, and not otherwise. */
  lemma DurableChanges(c: Client, step: Step)
    requires Enabled(c, step)
    ensures
      var next := Next(c, step);
      && next.outbox.Keys == (if step.Save? then c.outbox.Keys + {c.sequence}
                              else if step.DeleteStored? then c.outbox.Keys - {step.sequence} else c.outbox.Keys)
      && (forall n | n in next.outbox && n in c.outbox && !(step.Save? && n == c.sequence) ::
            next.outbox[n] == c.outbox[n])
      && next.next == (if step.Save? then Some(c.sequence + 1) else c.next)
      && next.intent == (if step.Stop? then StopPending else if step.StopReturns? then StopAcknowledged else c.intent)
      && c.history <= next.history && |next.history| == |c.history| + if step.Save? then 1 else 0
  {
    hide Resampler.Direct, Resampler.Pushed, Capture.Frames, Capture.AllFrames, FrameBytes, RecoverNextSequence;
  }

  /** The network only ever gains copies of pending frames, and only by sending. */
  lemma NetworkChanges(c: Client, step: Step)
    requires Enabled(c, step)
    ensures
      var next := Next(c, step);
      && next.acks == c.acks
      && forall message :: message in next.net
           <==> message in c.net
                || (step.Send? && exists n | n in NextFramesToSend(step.order, c.inFlight) ::
                      n in c.pending && c.pending[n] == message)
  {
    hide Resampler.Direct, Resampler.Pushed, Capture.Frames, Capture.AllFrames, FrameBytes, RecoverNextSequence;
    hide NextFramesToSend;
  }

  /**
   * What the page still has to send: all of the outbox when it starts or takes over, one frame more
   * when a save is published, one less when it is acknowledged, nothing after a reload. Nothing is
   * in flight after a connection is made or lost.
   */
  lemma SendingChanges(c: Client, step: Step)
    requires Enabled(c, step)
    ensures
      var next := Next(c, step);
      && (step.Activate? || step.FinishPending? ==> next.pending == c.outbox)
      && (step.Publish? ==> next.pending == c.pending[c.sequence := c.saved.value])
      && (step.ReceiveAck? ==>
            && next.pending == c.pending - {step.sequence} && next.inFlight == c.inFlight - {step.sequence}
            && next.deletes == c.deletes + {step.sequence})
      && (step.Refresh? ==> next.pending == map[] && next.deletes == {})
      && (step.Connect? || step.Disconnect? || step.FinishPending? || step.Refresh? ==> next.inFlight == {})
      && (step.Send? ==> next.inFlight == c.inFlight + (set n | n in NextFramesToSend(step.order, c.inFlight)))
      && (step.DeleteStored? ==> next.deletes == c.deletes - {step.sequence})
      && (next.pending != c.pending ==>
            step.Activate? || step.FinishPending? || step.Publish? || step.ReceiveAck? || step.Refresh?)
      && (next.online && !c.online ==> step.Connect?) && (step.Connect? ==> next.online)
      && (step.Disconnect? || step.Revoke? || step.Refresh? || step.StopReturns? ==> !next.online)
  {
    hide Resampler.Direct, Resampler.Pushed, Capture.Frames, Capture.AllFrames, FrameBytes, RecoverNextSequence;
    hide NextFramesToSend;
  }

  /**
   * A revoked page accepts and sends nothing more, whatever else happens to it, until it is asked to
   * finish what is pending or is reloaded; a stop while it records lets it go on sending.
   */
  lemma PhaseChanges(c: Client, step: Step)
    requires Enabled(c, step)
    ensures
      var next := Next(c, step);
      && (step.Activate? ==> next.phase.Recording?)
      && (step.Revoke? ==> next.phase.Revoked?)
      && (step.Stop? ==> next.phase == if c.phase.Recording? then Draining else Revoked)
      && (step.FinishPending? ==> next.phase.Draining?)
      && (step.StopReturns? ==> next.phase.Finished?)
      && (step.Refresh? ==> next.phase.Absent?)
      && (next.phase != c.phase ==> step.Activate? || step.Revoke? || step.Stop? || step.FinishPending?
                                    || step.StopReturns? || step.Refresh?)
    ensures c.phase.Revoked? ==> !step.AcceptBlock? && !step.Send? && !step.Connect? && !step.ReceiveAck?
  {
    hide Resampler.Direct, Resampler.Pushed, Capture.Frames, Capture.AllFrames, FrameBytes, RecoverNextSequence;
  }

  // What holds in every state, with `chunks` what Core has stored

  ghost predicate Carries(frames: map<nat, seq<Byte>>, history: seq<Frame>) {
    forall n | n in frames :: 1 <= n <= |history| && ParseFrame(frames[n]) == Ok(history[n - 1])
  }

  ghost predicate Carried(message: seq<Byte>, history: seq<Frame>) {
    && ParseFrame(message).Ok?
    && 1 <= ParseFrame(message).value.sequence <= |history|
    && history[ParseFrame(message).value.sequence - 1] == ParseFrame(message).value
  }

  ghost predicate CarriesAll(messages: set<seq<Byte>>, history: seq<Frame>) {
    forall m | m in messages :: Carried(m, history)
  }

  /** Every number below the next one is in the outbox or committed. */
  ghost predicate Covered(total: nat, outbox: map<nat, seq<Byte>>, chunks: map<nat, Frame>) {
    forall n | 1 <= n <= total :: n in outbox || n in chunks
  }

  /** A live page knows of every frame that is not committed; the last one may be about to be published. */
  ghost predicate PageKnows(phase: Phase, total: nat, outbox: map<nat, seq<Byte>>, pending: map<nat, seq<Byte>>,
                            publishing: bool, chunks: map<nat, Frame>)
  {
    !phase.Absent? ==> forall n | n in outbox :: n in pending || n in chunks || (publishing && n == total)
  }

  ghost predicate WriterFits(phase: Phase, sequence: nat, queue: seq<seq<real>>, saved: Option<seq<Byte>>,
                             history: seq<Frame>)
  {
    && (phase.Absent? || phase.Finished? ==> queue == [] && saved.None?)
    && (phase.Recording? || phase.Revoked? || queue != [] || saved.Some? ==>
         sequence == if saved.Some? then |history| else |history| + 1)
    && (saved.Some? ==> history != [] && ParseFrame(saved.value) == Ok(history[|history| - 1]))
  }

  ghost predicate Committed(numbers: set<nat>, chunks: map<nat, Frame>) {
    forall n | n in numbers :: n in chunks
  }

  ghost predicate IntentFits(intent: Intent, phase: Phase, total: nat, chunks: map<nat, Frame>) {
    && (!intent.NoIntent? ==> !phase.Recording?)
    && (intent.StopAcknowledged? ==>
         (phase.Finished? || phase.Absent?) && forall n | 1 <= n <= total :: n in chunks)
  }

  /** What the page handed to its write chain is persisted, in order, up to the queue. */
  ghost predicate RecordingFits(history: seq<Frame>, base: nat, handed: seq<seq<real>>, queue: seq<seq<real>>) {
    && Framed(handed)
    && base <= |history| && |history| - base <= |handed|
    && queue == handed[|history| - base..]
    && forall i | base <= i < |history| :: history[i].pcm == PcmBytes(handed[i - base])
  }

  /**
   * The frames handed over are those of the capture: the whole seconds of what is fixed so far
   * while the page records, and every sample once it has been stopped.
   */
  ghost predicate InputFits(phase: Phase, intent: Intent, rate: real, accepted: seq<real>, handed: seq<seq<real>>,
                            whole: bool)
  {
    && (phase.Recording? || (phase.Revoked? && intent.NoIntent?) ==>
         !whole && rate > 0.0 && handed == Capture.Frames(Resampler.Pushed(accepted, rate)))
    && (whole ==> !intent.NoIntent? && rate > 0.0 && handed == Capture.AllFrames(Resampler.Direct(accepted, rate)))
  }

  ghost predicate ClientInv(c: Client, chunks: map<nat, Frame>) {
    && Numbered(c.history, 1) && |c.history| < MAX_SAFE_INTEGER
    && c.next == (if c.history == [] then None else Some(|c.history| + 1))
    && Carries(c.outbox, c.history) && Carries(c.pending, c.history)
    && CarriesAll(c.net, c.history)
    && Covered(|c.history|, c.outbox, chunks)
    && PageKnows(c.phase, |c.history|, c.outbox, c.pending, c.saved.Some?, chunks)
    && WriterFits(c.phase, c.sequence, c.queue, c.saved, c.history)
    && Committed(c.acks, chunks) && Committed(c.deletes, chunks)
    && IntentFits(c.intent, c.phase, |c.history|, chunks)
    && RecordingFits(c.history, c.base, c.handed, c.queue)
    && InputFits(c.phase, c.intent, c.rate, c.accepted, c.handed, c.whole)
  }

  // The invariant is kept by every step

  lemma CarriesMore(frames: map<nat, seq<Byte>>, history: seq<Frame>, more: Frame)
    requires Carries(frames, history)
    ensures Carries(frames, history + [more])
  {
  }

  lemma CarriesLess(frames: map<nat, seq<Byte>>, history: seq<Frame>, n: nat)
    requires Carries(frames, history)
    ensures Carries(frames - {n}, history)
  {
  }

  lemma CarriesWritten(frames: map<nat, seq<Byte>>, history: seq<Frame>, bytes: seq<Byte>)
    requires Carries(frames, history) && history != [] && ParseFrame(bytes) == Ok(history[|history| - 1])
    ensures Carries(frames[|history| := bytes], history)
  {
  }

  lemma CarriesAllMore(messages: set<seq<Byte>>, history: seq<Frame>, more: Frame)
    requires CarriesAll(messages, history)
    ensures CarriesAll(messages, history + [more])
  {
    forall m | m in messages
      ensures Carried(m, history + [more])
    {
      assert Carried(m, history);
    }
  }

  lemma CarriesSent(messages: set<seq<Byte>>, order: seq<nat>, frames: map<nat, seq<Byte>>, history: seq<Frame>)
    requires CarriesAll(messages, history) && Carries(frames, history) && Numbered(history, 1)
    ensures CarriesAll(messages + Messages(order, frames), history)
  {
    hide ParseFrame;
  }

  /** A page that starts goes on exactly behind the frames ever persisted. */
  lemma RecoveredSequence(c: Client, chunks: map<nat, Frame>, stored: seq<nat>)
    requires ClientInv(c, chunks) && Enumerates(stored, c.outbox)
    ensures RecoverNextSequence(c.next, stored) == |c.history| + 1
  {
    hide CarriesAll, Covered, PageKnows, WriterFits, IntentFits, RecordingFits, Committed, ParseFrame, Numbered;
    AboveAll(stored, if c.next.Some? && 1 <= c.next.value <= MAX_SAFE_INTEGER then c.next.value else 1);
  }

  lemma NothingAccepted(rate: real)
    requires rate > 0.0
    ensures Capture.Frames(Resampler.Pushed([], rate)) == []
  {
  }

  lemma ActivateKeeps(c: Client, chunks: map<nat, Frame>, stored: seq<nat>, rate: real)
    requires ClientInv(c, chunks) && Enabled(c, Activate(stored, rate))
    ensures ClientInv(Next(c, Activate(stored, rate)), chunks)
  {
    hide Carries, CarriesAll, Committed, ParseFrame, Numbered, RecoverNextSequence, Covered, PcmBytes;
    hide Capture.Frames, Resampler.Pushed;
    RecoveredSequence(c, chunks, stored);
    NothingAccepted(rate);
  }

  lemma HandedMore(history: seq<Frame>, base: nat, handed: seq<seq<real>>, queue: seq<seq<real>>, more: seq<seq<real>>)
    requires RecordingFits(history, base, handed, queue) && Framed(more)
    ensures RecordingFits(history, base, handed + more, queue + more)
  {
    hide PcmBytes;
  }

  /** The page hands over what is new, and then has handed over exactly `frames`. */
  lemma HandOverKeeps(c: Client, frames: seq<seq<real>>)
    requires RecordingFits(c.history, c.base, c.handed, c.queue) && c.handed <= frames && Framed(frames)
    ensures RecordingFits(c.history, c.base, HandOver(c, frames).handed, HandOver(c, frames).queue)
    ensures HandOver(c, frames).handed == frames
  {
    hide RecordingFits;
    var more := NotYetHanded(c.handed, frames);
    assert forall i | 0 <= i < |more| :: more[i] == frames[|c.handed| + i];
    HandedMore(c.history, c.base, c.handed, c.queue, more);
  }

  /** What the capture cuts while it records only grows, and consists of frames. */
  lemma BlockFrames(accepted: seq<real>, block: seq<real>, rate: real)
    requires rate > 0.0
    ensures
      var frames := Capture.Frames(Resampler.Pushed(accepted + block, rate));
      Capture.Frames(Resampler.Pushed(accepted, rate)) <= frames && Framed(frames)
  {
    hide Capture.Frames, Resampler.Pushed;
    Resampler.PushedGrows(accepted, block, rate);
    Capture.FramesGrow(Resampler.Pushed(accepted, rate), Resampler.Pushed(accepted + block, rate));
    Capture.FramesAreFull(Resampler.Pushed(accepted + block, rate));
  }

  lemma HandOverElse(c: Client, frames: seq<seq<real>>)
    ensures HandOver(c, frames) == c.(queue := HandOver(c, frames).queue, handed := HandOver(c, frames).handed)
    ensures c.queue <= HandOver(c, frames).queue
  {
  }

  lemma AcceptKeeps(c: Client, chunks: map<nat, Frame>, block: seq<real>)
    requires ClientInv(c, chunks) && Enabled(c, AcceptBlock(block))
    ensures ClientInv(Next(c, AcceptBlock(block)), chunks)
  {
    hide Carries, CarriesAll, Committed, ParseFrame, Numbered, Covered, PageKnows, IntentFits, RecordingFits, Framed;
    hide Capture.Frames, Capture.AllFrames, Resampler.Pushed, Resampler.Direct, HandOver;
    BlockFrames(c.accepted, block, c.rate);
    HandOverKeeps(c, Capture.Frames(Resampler.Pushed(c.accepted + block, c.rate)));
    HandOverElse(c, Capture.Frames(Resampler.Pushed(c.accepted + block, c.rate)));
  }

  /** What `queueFrame` persists. */
  lemma WrittenParses(c: Client, capturedAtMs: nat)
    requires WriterFits(c.phase, c.sequence, c.queue, c.saved, c.history)
    requires RecordingFits(c.history, c.base, c.handed, c.queue) && Enabled(c, Save(capturedAtMs))
    ensures ParseFrame(Written(c, capturedAtMs)) == Ok(Frame(c.sequence, capturedAtMs, PcmBytes(c.queue[0])))
  {
    hide ParseFrame, PcmBytes, FrameBytes, BigEndian;
    assert c.queue[0] == c.handed[|c.history| - c.base];
    FrameRoundTrip(c.sequence, capturedAtMs, c.queue[0]);
  }

  /** The recording after a frame has been persisted. */
  lemma HandedSaved(history: seq<Frame>, base: nat, handed: seq<seq<real>>, queue: seq<seq<real>>, frame: Frame)
    requires RecordingFits(history, base, handed, queue) && queue != [] && frame.pcm == PcmBytes(queue[0])
    ensures RecordingFits(history + [frame], base, handed, queue[1..])
  {
    hide Framed, PcmBytes;
    assert queue[0] == handed[|history| - base];
  }

  lemma SaveKeeps(c: Client, chunks: map<nat, Frame>, capturedAtMs: nat)
    requires ClientInv(c, chunks) && Enabled(c, Save(capturedAtMs))
    ensures ClientInv(Next(c, Save(capturedAtMs)), chunks)
  {
    hide Carries, CarriesAll, Committed, ParseFrame, PcmBytes, FrameBytes, Written, RecordingFits;
    var frame := Frame(c.sequence, capturedAtMs, PcmBytes(c.queue[0]));
    WrittenParses(c, capturedAtMs);
    HandedSaved(c.history, c.base, c.handed, c.queue, frame);
    CarriesMore(c.outbox, c.history, frame);
    CarriesMore(c.pending, c.history, frame);
    CarriesAllMore(c.net, c.history, frame);
    CarriesWritten(c.outbox, c.history + [frame], Written(c, capturedAtMs));
  }

  lemma PublishKeeps(c: Client, chunks: map<nat, Frame>)
    requires ClientInv(c, chunks) && Enabled(c, Publish)
    ensures ClientInv(Next(c, Publish), chunks)
  {
    hide Carries, CarriesAll, Committed, ParseFrame, Numbered, Covered, IntentFits, RecordingFits;
    CarriesWritten(c.pending, c.history, c.saved.value);
  }

  lemma SendKeeps(c: Client, chunks: map<nat, Frame>, order: seq<nat>)
    requires ClientInv(c, chunks) && Enabled(c, Send(order))
    ensures ClientInv(Next(c, Send(order)), chunks)
  {
    hide Carries, CarriesAll, Committed, Covered, PageKnows, WriterFits, IntentFits, RecordingFits, Numbered, Messages;
    CarriesSent(c.net, NextFramesToSend(order, c.inFlight), c.pending, c.history);
  }

  lemma AckKeeps(c: Client, chunks: map<nat, Frame>, n: nat)
    requires ClientInv(c, chunks) && Enabled(c, ReceiveAck(n))
    ensures ClientInv(Next(c, ReceiveAck(n)), chunks)
  {
    hide Carries, CarriesAll, Covered, WriterFits, IntentFits, RecordingFits, Numbered;
    CarriesLess(c.pending, c.history, n);
  }

  lemma DeleteKeeps(c: Client, chunks: map<nat, Frame>, n: nat)
    requires ClientInv(c, chunks) && Enabled(c, DeleteStored(n))
    ensures ClientInv(Next(c, DeleteStored(n)), chunks)
  {
    hide Carries, CarriesAll, WriterFits, IntentFits, RecordingFits, Numbered;
    CarriesLess(c.outbox, c.history, n);
  }

  lemma StopFramesFit(recording: bool, accepted: seq<real>, rate: real)
    requires rate > 0.0
    ensures Capture.Frames(Resampler.Pushed(accepted, rate)) <= StopFrames(recording, accepted, rate)
    ensures Framed(StopFrames(recording, accepted, rate))
  {
    hide Capture.Frames, Capture.AllFrames, Resampler.Pushed, Resampler.Direct;
    var stream := if recording then Resampler.Direct(accepted, rate) else Resampler.Pushed(accepted, rate);
    Capture.FramesGrow(Resampler.Pushed(accepted, rate), stream);
    Capture.AllFramesFit(stream);
  }

  lemma StopKeeps(c: Client, chunks: map<nat, Frame>)
    requires ClientInv(c, chunks) && Enabled(c, Stop)
    ensures ClientInv(Next(c, Stop), chunks)
  {
    hide Carries, CarriesAll, Committed, Covered, RecordingFits, Numbered, Framed, ParseFrame;
    hide Capture.Frames, Capture.AllFrames, Resampler.Pushed, Resampler.Direct, HandOver;
    StopFramesFit(c.phase.Recording?, c.accepted, c.rate);
    HandOverKeeps(c, StopFrames(c.phase.Recording?, c.accepted, c.rate));
    HandOverElse(c, StopFrames(c.phase.Recording?, c.accepted, c.rate));
  }

  lemma FinishPendingKeeps(c: Client, chunks: map<nat, Frame>)
    requires ClientInv(c, chunks) && Enabled(c, FinishPending)
    ensures ClientInv(Next(c, FinishPending), chunks)
  {
    hide Carries, CarriesAll, Committed, Covered, RecordingFits, Numbered;
  }

  /** When `stop` or `finishPending` returns normally, the server holds every frame. */
  lemma NothingIsLeft(c: Client, chunks: map<nat, Frame>, n: nat)
    requires ClientInv(c, chunks) && Enabled(c, StopReturns) && 1 <= n <= |c.history|
    ensures n in chunks
  {
    hide Carries, CarriesAll, Committed, RecordingFits, Numbered, WriterFits, IntentFits;
  }

  lemma ReturnKeeps(c: Client, chunks: map<nat, Frame>)
    requires ClientInv(c, chunks) && Enabled(c, StopReturns)
    ensures ClientInv(Next(c, StopReturns), chunks)
  {
    hide Carries, CarriesAll, Committed, Covered, RecordingFits, Numbered;
    forall n | 1 <= n <= |c.history|
      ensures n in chunks
    {
      NothingIsLeft(c, chunks, n);
    }
  }

  /** A refresh loses what was not yet persisted and nothing else. */
  lemma RefreshKeeps(c: Client, chunks: map<nat, Frame>)
    requires ClientInv(c, chunks)
    ensures ClientInv(Next(c, Refresh), chunks)
  {
    hide CarriesAll, Covered, Numbered, ParseFrame, PcmBytes;
  }

  lemma LinkKeeps(c: Client, chunks: map<nat, Frame>, step: Step)
    requires ClientInv(c, chunks) && Enabled(c, step)
    requires step.Connect? || step.Disconnect? || step.Revoke?
    ensures ClientInv(Next(c, step), chunks)
  {
    hide Carries, CarriesAll, Committed, Covered, RecordingFits, Numbered, ParseFrame;
  }

  lemma StepKeeps(c: Client, chunks: map<nat, Frame>, step: Step)
    requires ClientInv(c, chunks) && Enabled(c, step)
    ensures ClientInv(Next(c, step), chunks)
  {
    hide ClientInv, Enabled, Next;
    match step
    case Activate(stored, rate) => ActivateKeeps(c, chunks, stored, rate);
    case AcceptBlock(block) => AcceptKeeps(c, chunks, block);
    case Save(capturedAtMs) => SaveKeeps(c, chunks, capturedAtMs);
    case Publish => PublishKeeps(c, chunks);
    case Connect => LinkKeeps(c, chunks, step);
    case Disconnect => LinkKeeps(c, chunks, step);
    case Send(order) => SendKeeps(c, chunks, order);
    case ReceiveAck(n) => AckKeeps(c, chunks, n);
    case DeleteStored(n) => DeleteKeeps(c, chunks, n);
    case Revoke => LinkKeeps(c, chunks, step);
    case Stop => StopKeeps(c, chunks);
    case FinishPending => FinishPendingKeeps(c, chunks);
    case StopReturns => ReturnKeeps(c, chunks);
    case Refresh => RefreshKeeps(c, chunks);
  }

  /** The client's invariant only gains from what Core stores. */
  lemma ChunksMore(c: Client, chunks: map<nat, Frame>, more: map<nat, Frame>)
    requires ClientInv(c, chunks) && forall n | n in chunks :: n in more
    ensures ClientInv(c, more)
  {
    hide Carries, CarriesAll, WriterFits, RecordingFits, Numbered;
  }

  lemma NumbersAtMost(order: seq<nat>)
    ensures |Numbers(order)| <= |order|
  {
    if order == [] {
      assert Numbers(order) == {};
    } else {
      NumbersAtMost(order[1..]);
      assert order == [order[0]] + order[1..];
      assert Numbers(order) == {order[0]} + Numbers(order[1..]);
    }
  }

  /** At most eight frames are in flight. */
  lemma InFlightStaysBounded(c: Client, step: Step)
    requires Enabled(c, step) && |c.inFlight| <= 8
    ensures |Next(c, step).inFlight| <= 8
  {
    if step.Send? {
      var frames := NextFramesToSend(step.order, c.inFlight);
      NextFramesFit(step.order, c.inFlight);
      NumbersAtMost(frames);
    }
  }
}
