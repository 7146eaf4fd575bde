/**
 * The audio path end to end: the recording page of `Outbox`, a lossy network, and Core's
 * tables and assembly runs of `AssemblyRuns`, in any interleaving.
 */
module AudioProtocol {
  import opened Sequences
  import opened FrameCodec
  import opened Segmenter
  import opened Windows
  import opened Assembler
  import opened Outbox
  import AssemblyRuns
  import Capture
  import Resampler

  datatype State = State(client: Client, server: AssemblyRuns.Server)

  datatype Action =
    | Page(step: Step)
    // One copy of a message reaches Core, which answers it.
    | Deliver(message: seq<Byte>)
    // The stop request, made only once the page has noted that all audio is acknowledged.
    | StopSession
    | Core(coreStep: AssemblyRuns.Step)

  ghost predicate Allowed(rule: Rule<Frame>, s: State, action: Action) {
    match action
    case Page(step) => Enabled(s.client, step)
    case Deliver(message) => message in s.client.net
    case StopSession => s.client.intent.StopAcknowledged?
    case Core(step) => AssemblyRuns.Enabled(rule, s.server, step) && !step.Receive? && !step.StopSession?
  }

  /** The sequence that Core acknowledges, if it does. */
  function Acknowledged(receipt: Receipt): set<nat> {
    match receipt
    case Stored(sequence) => {sequence}
    case Duplicate(sequence) => {sequence}
    case Refused(_) => {}
    case Conflict(_) => {}
  }

  function After(rule: Rule<Frame>, s: State, action: Action): State
    requires Allowed(rule, s, action)
  {
    match action
    case Page(step) => s.(client := Next(s.client, step))
    case Deliver(message) =>
      State(s.client.(acks := s.client.acks + Acknowledged(Receive(s.server.chunks, message))),
            AssemblyRuns.Next(rule, s.server, AssemblyRuns.Receive(message)))
    case StopSession => s.(server := AssemblyRuns.Next(rule, s.server, AssemblyRuns.StopSession))
    case Core(step) => s.(server := AssemblyRuns.Next(rule, s.server, step))
  }

  ghost predicate Inv(rule: Rule<Frame>, s: State) {
    && ClientInv(s.client, s.server.chunks)
    && AssemblyRuns.ServerInv(rule, s.client.history, s.server)
    && (s.server.stopping ==> s.client.intent.StopAcknowledged?)
  }

  function Initial(): State {
    State(Client(map[], None, NoIntent, Absent, 1, [], None, map[], {}, {}, false, {}, {},
                 48000.0, [], 0, [], [], false),
          AssemblyRuns.Server(map[], 0, [], {}, false, map[]))
  }

  lemma InitialInv(rule: Rule<Frame>)
    ensures Inv(rule, Initial())
  {
    assert GroupsTo(rule, [], 0) == [];
  }

  /** Only saving a frame adds to the history, and an acknowledged stop stays acknowledged. */
  lemma HistoryStep(c: Client, chunks: map<nat, Frame>, step: Step)
    requires ClientInv(c, chunks) && Enabled(c, step)
    ensures c.intent.StopAcknowledged? ==> Next(c, step).intent.StopAcknowledged? && !step.Save?
    ensures !step.Save? ==> Next(c, step).history == c.history
    ensures step.Save? ==>
      exists frame: Frame :: frame.sequence == |c.history| + 1 && Next(c, step).history == c.history + [frame]
  {
    hide Carries, CarriesAll, Committed, Covered, PageKnows, RecordingFits, Numbered, ParseFrame;
    if step.Save? {
      var frame := Frame(c.sequence, step.capturedAtMs, PcmBytes(c.queue[0]));
      assert Next(c, step).history == c.history + [frame];
    }
  }

  lemma PageKeeps(rule: Rule<Frame>, s: State, step: Step)
    requires Inv(rule, s) && Enabled(s.client, step)
    ensures Inv(rule, After(rule, s, Page(step)))
  {
    hide ClientInv, Enabled, Next, AssemblyRuns.ServerInv;
    StepKeeps(s.client, s.server.chunks, step);
    HistoryStep(s.client, s.server.chunks, step);
    if step.Save? {
      var frame: Frame :| frame.sequence == |s.client.history| + 1
                       && Next(s.client, step).history == s.client.history + [frame];
      AssemblyRuns.HistoryGrows(rule, s.client.history, frame, s.server);
    }
  }

  lemma AcksMore(c: Client, chunks: map<nat, Frame>, more: set<nat>)
    requires ClientInv(c, chunks) && Committed(more, chunks)
    ensures ClientInv(c.(acks := c.acks + more), chunks)
  {
    hide ParseFrame, Carries, CarriesAll, Covered, PageKnows, WriterFits, IntentFits, RecordingFits, Numbered;
  }

  lemma DeliverKeeps(rule: Rule<Frame>, s: State, message: seq<Byte>)
    requires Inv(rule, s) && message in s.client.net
    ensures Inv(rule, After(rule, s, Deliver(message)))
    ensures !Receive(s.server.chunks, message).Conflict? && !Receive(s.server.chunks, message).Refused?
  {
    hide AssemblyRuns.ServerInv, ParseFrame, Carries, Covered, PageKnows, WriterFits, IntentFits, RecordingFits;
    hide Numbered;
    var chunks, after := s.server.chunks, AfterReceive(s.server.chunks, message);
    assert Carried(message, s.client.history);
    AssemblyRuns.ReceiveKeeps(rule, s.client.history, s.server, message);
    AcksMore(s.client, after, Acknowledged(Receive(chunks, message))) by {
      ChunksMore(s.client, chunks, after);
    }
  }

  lemma StopSessionKeeps(rule: Rule<Frame>, s: State)
    requires Inv(rule, s) && s.client.intent.StopAcknowledged?
    ensures Inv(rule, After(rule, s, StopSession))
  {
    AssemblyRuns.StopKeeps(rule, s.client.history, s.server) by {
      hide Carries, CarriesAll, Covered, PageKnows, WriterFits, RecordingFits, Committed, AssemblyRuns.ServerInv;
    }
    hide ClientInv, AssemblyRuns.ServerInv;
  }

  lemma CoreKeeps(rule: Rule<Frame>, s: State, step: AssemblyRuns.Step)
    requires Inv(rule, s) && AssemblyRuns.Enabled(rule, s.server, step) && !step.Receive? && !step.StopSession?
    ensures Inv(rule, After(rule, s, Core(step)))
  {
    hide ClientInv, AssemblyRuns.ServerInv, NextGroup, WithWindow, Lists, WindowOf;
    match step
    case ListChunks(_, _, _) => AssemblyRuns.ListKeeps(rule, s.client.history, s.server, step);
    case ReadCursor(id) => AssemblyRuns.ReadKeeps(rule, s.client.history, s.server, id);
    case EnqueueJob(id) => AssemblyRuns.EnqueueKeeps(rule, s.client.history, s.server, id);
    case RecordWindow(id) => AssemblyRuns.RecordKeeps(rule, s.client.history, s.server, id);
    case FinishRun(_) => AssemblyRuns.FinishKeeps(rule, s.client.history, s.server, step);
    case Restart => AssemblyRuns.FinishKeeps(rule, s.client.history, s.server, step);
  }

  lemma ActionKeeps(rule: Rule<Frame>, s: State, action: Action)
    requires Inv(rule, s) && Allowed(rule, s, action)
    ensures Inv(rule, After(rule, s, action))
  {
    hide Inv, Enabled, AssemblyRuns.Enabled, After;
    match action
    case Page(step) => PageKeeps(rule, s, step);
    case Deliver(message) => DeliverKeeps(rule, s, message);
    case StopSession => StopSessionKeeps(rule, s);
    case Core(step) => CoreKeeps(rule, s, step);
  }

  // Runs

  ghost predicate IsRun(rule: Rule<Frame>, s: State, actions: seq<Action>)
    decreases |actions|
  {
    actions == [] || (Allowed(rule, s, actions[0]) && IsRun(rule, After(rule, s, actions[0]), actions[1..]))
  }

  ghost function End(rule: Rule<Frame>, s: State, actions: seq<Action>): State
    requires IsRun(rule, s, actions)
    decreases |actions|
  {
    if actions == [] then s else End(rule, After(rule, s, actions[0]), actions[1..])
  }

  lemma {:induction false} RunKeeps(rule: Rule<Frame>, s: State, actions: seq<Action>)
    requires Inv(rule, s) && IsRun(rule, s, actions)
    ensures Inv(rule, End(rule, s, actions))
    decreases |actions|
  {
    hide Inv, Allowed, After;
    if actions != [] {
      ActionKeeps(rule, s, actions[0]);
      RunKeeps(rule, After(rule, s, actions[0]), actions[1..]);
    }
  }

  /** What is persisted, committed or recorded once stays as it is. */
  ghost predicate Grown(s: State, later: State) {
    && s.client.history <= later.client.history
    && (forall n | n in s.server.chunks :: n in later.server.chunks && later.server.chunks[n] == s.server.chunks[n])
    && s.server.windows <= later.server.windows
  }

  lemma ActionGrows(rule: Rule<Frame>, s: State, action: Action)
    requires Inv(rule, s) && Allowed(rule, s, action)
    ensures Grown(s, After(rule, s, action))
  {
    hide ClientInv, AssemblyRuns.ServerInv, NextGroup, Lists, WindowOf, ParseFrame, Enabled;
    match action
    case Page(step) => HistoryStep(s.client, s.server.chunks, step);
    case Deliver(_) =>
    case StopSession =>
    case Core(_) =>
  }

  lemma {:induction false} RunGrows(rule: Rule<Frame>, s: State, actions: seq<Action>)
    requires Inv(rule, s) && IsRun(rule, s, actions)
    ensures Grown(s, End(rule, s, actions))
    decreases |actions|
  {
    hide Inv, Allowed, After;
    if actions != [] {
      ActionKeeps(rule, s, actions[0]);
      ActionGrows(rule, s, actions[0]);
      RunGrows(rule, After(rule, s, actions[0]), actions[1..]);
    }
  }

  // The promises

  /**
   * In every reachable state the stable windows hold exactly the audio persisted for the frames
   * up to the cursor: no gap, no overlap, no reorder.
   */
  lemma WindowsAreTheRecording(rule: Rule<Frame>, actions: seq<Action>)
    requires IsRun(rule, Initial(), actions)
    ensures
      var s := End(rule, Initial(), actions);
      && s.server.cursor <= |s.client.history|
      && WindowPcm(s.server.windows) == Pcm(s.client.history[..s.server.cursor])
      && Consecutive(s.server.windows, 1)
      && (forall window | window in s.server.windows :: Holds(window, s.client.history))
  {
    hide ClientInv, AssemblyRuns.ServerInv;
    InitialInv(rule);
    RunKeeps(rule, Initial(), actions);
    var s := End(rule, Initial(), actions);
    AssemblyRuns.WindowsTileHistory(rule, s.client.history, s.server);
  }

  lemma {:induction false} RunQueues(rule: Rule<Frame>, s: State, actions: seq<Action>)
    requires IsRun(rule, s, actions) && AssemblyRuns.Queued(s.server.windows, s.server.runs, s.server.jobs)
    ensures
      var end := End(rule, s, actions);
      AssemblyRuns.Queued(end.server.windows, end.server.runs, end.server.jobs)
    decreases |actions|
  {
    hide AssemblyRuns.Queued, AssemblyRuns.Next, Receive, AfterReceive, Next, Enabled;
    if actions != [] {
      match actions[0] {
        case Page(_) =>
        case Deliver(message) => AssemblyRuns.QueuedKeeps(rule, s.server, AssemblyRuns.Receive(message));
        case StopSession => AssemblyRuns.QueuedKeeps(rule, s.server, AssemblyRuns.StopSession);
        case Core(step) => AssemblyRuns.QueuedKeeps(rule, s.server, step);
      }
      RunQueues(rule, After(rule, s, actions[0]), actions[1..]);
    }
  }

  /** No window is stored without its recognition job, wherever Core is killed and restarted. */
  lemma EveryWindowHasItsJob(rule: Rule<Frame>, actions: seq<Action>)
    requires IsRun(rule, Initial(), actions)
    ensures
      var s := End(rule, Initial(), actions).server;
      forall window | window in s.windows :: window in s.jobs
  {
    RunQueues(rule, Initial(), actions);
  }

  /** `frame` is safe: its bytes wait in the outbox, or Core has committed it. */
  ghost predicate Safe(s: State, frame: Frame) {
    || (frame.sequence in s.client.outbox && ParseFrame(s.client.outbox[frame.sequence]) == Ok(frame))
    || (frame.sequence in s.server.chunks && s.server.chunks[frame.sequence] == frame)
  }

  /**
   * Outbox safety: a frame persisted at any time is safe at all later times, its number is the
   * one it was given, and the next number to give is still free.
   */
  lemma NoFrameIsLost(rule: Rule<Frame>, actions: seq<Action>, more: seq<Action>, n: nat)
    requires IsRun(rule, Initial(), actions) && IsRun(rule, End(rule, Initial(), actions), more)
    requires 1 <= n <= |End(rule, Initial(), actions).client.history|
    ensures
      var s := End(rule, Initial(), actions);
      var later := End(rule, s, more);
      var frame := s.client.history[n - 1];
      && frame.sequence == n
      && Safe(later, frame)
      && (later.client.next == Some(|later.client.history| + 1) && |later.client.history| >= n)
  {
    hide PageKnows, WriterFits, IntentFits, RecordingFits, InputFits, ParseFrame, CarriesAll;
    hide AssemblyRuns.Recorded, AssemblyRuns.JobsFit, AssemblyRuns.RunsFit, AssemblyRuns.Complete;
    InitialInv(rule);
    RunKeeps(rule, Initial(), actions);
    var s := End(rule, Initial(), actions);
    RunKeeps(rule, s, more);
    RunGrows(rule, s, more);
    var later := End(rule, s, more);
    assert later.client.history[n - 1] == s.client.history[n - 1];
  }

  /** No number is ever carried by two payloads, on the wire, in the page, in the outbox or at Core. */
  lemma NumbersAreNeverReused(rule: Rule<Frame>, actions: seq<Action>, more: seq<Action>, a: seq<Byte>, b: seq<Byte>)
    requires IsRun(rule, Initial(), actions) && IsRun(rule, End(rule, Initial(), actions), more)
    requires a in End(rule, Initial(), actions).client.net
    requires b in End(rule, End(rule, Initial(), actions), more).client.net
    ensures ParseFrame(a).Ok? && ParseFrame(b).Ok?
    ensures ParseFrame(a).value.sequence == ParseFrame(b).value.sequence ==> a == b
  {
    hide PageKnows, WriterFits, IntentFits, RecordingFits, ParseFrame, Carries, Covered;
    InitialInv(rule);
    RunKeeps(rule, Initial(), actions);
    var s := End(rule, Initial(), actions);
    RunKeeps(rule, s, more);
    RunGrows(rule, s, more);
    assert Carried(a, s.client.history);
    assert Carried(b, End(rule, s, more).client.history);
    if ParseFrame(a).value.sequence == ParseFrame(b).value.sequence {
      ParseFrameInjective(a, b);
    }
  }

  /**
   * Whatever reaches Core, in whatever order and however often, is stored or known, nothing conflicts,
   * and its number, no other, is added to what Core has acknowledged.
   */
  lemma DeliveryIsAcknowledged(rule: Rule<Frame>, actions: seq<Action>, message: seq<Byte>)
    requires IsRun(rule, Initial(), actions) && message in End(rule, Initial(), actions).client.net
    ensures
      var s := End(rule, Initial(), actions);
      var receipt := Receive(s.server.chunks, message);
      && (receipt.Stored? || receipt.Duplicate?)
      && ParseFrame(message).Ok?
      && After(rule, s, Deliver(message)).client.acks == s.client.acks + {ParseFrame(message).value.sequence}
  {
    hide ClientInv, AssemblyRuns.ServerInv, AssemblyRuns.Next;
    InitialInv(rule);
    RunKeeps(rule, Initial(), actions);
    DeliverKeeps(rule, End(rule, Initial(), actions), message);
  }

  /** When `stop` or `finishPending` can return, Core holds every frame exactly as persisted. */
  lemma ReturnedMeansCommitted(rule: Rule<Frame>, actions: seq<Action>, n: nat)
    requires IsRun(rule, Initial(), actions)
    requires Enabled(End(rule, Initial(), actions).client, StopReturns)
    requires 1 <= n <= |End(rule, Initial(), actions).client.history|
    ensures
      var s := End(rule, Initial(), actions);
      n in s.server.chunks && s.server.chunks[n] == s.client.history[n - 1]
  {
    InitialInv(rule);
    RunKeeps(rule, Initial(), actions);
    var s := End(rule, Initial(), actions);
    NothingIsLeft(s.client, s.server.chunks, n);
    hide ClientInv, AssemblyRuns.RunsFit, AssemblyRuns.Recorded, AssemblyRuns.JobsFit;
  }

  /**
   * Once the session is stopped, a sealing run that is aligned when it finishes has put the
   * whole recording into windows.
   */
  lemma SealedSessionIsComplete(rule: Rule<Frame>, actions: seq<Action>, id: nat)
    requires IsRun(rule, Initial(), actions)
    requires
      var s := End(rule, Initial(), actions);
      && AssemblyRuns.Enabled(rule, s.server, AssemblyRuns.FinishRun(id))
      && s.server.runs[id].seal && AssemblyRuns.Aligned(s.client.history, s.server.runs[id])
    ensures
      var s := End(rule, Initial(), actions);
      && WindowPcm(s.server.windows) == Pcm(s.client.history)
      && NoneEmpty(Sealed(rule, s.client.history))
      && s.server.windows == WindowsOf(Sealed(rule, s.client.history))
  {
    hide ClientInv, AssemblyRuns.ServerInv, AssemblyRuns.Enabled, AssemblyRuns.Aligned;
    InitialInv(rule);
    RunKeeps(rule, Initial(), actions);
    var s := End(rule, Initial(), actions);
    AssemblyRuns.AlignedRunSealsAll(rule, s.client.history, s.server, id);
  }

  // What a sealing run reaches

  /** Run `id` is not killed by a restart, and has not finished yet. */
  ghost predicate LeavesAlive(actions: seq<Action>, id: nat) {
    forall k | 0 <= k < |actions| ::
      actions[k] != Core(AssemblyRuns.Restart) && actions[k] != Core(AssemblyRuns.FinishRun(id))
  }

  predicate RecordsForAnother(action: Action, id: nat) {
    action.Core? && action.coreStep.RecordWindow? && action.coreStep.id != id
  }

  /** Somewhere on the way a run other than `id` records the last window. */
  ghost predicate SealedByAnother(rule: Rule<Frame>, s: State, actions: seq<Action>, id: nat)
    requires IsRun(rule, s, actions)
    decreases |actions|
  {
    && actions != []
    && var next := After(rule, s, actions[0]);
       || (RecordsForAnother(actions[0], id) && next.server.cursor == |next.client.history|)
       || SealedByAnother(rule, next, actions[1..], id)
  }

  /** The run has not looked at the cursor yet, or finds nothing to do. */
  ghost predicate Idle(rule: Rule<Frame>, run: AssemblyRuns.Run) {
    && !run.Enqueued?
    && (run.Working? ==> run.index <= |run.list|)
    && (run.Working? ==> NextGroup(rule, run.list, run.seal, run.index, run.expected).None?)
  }

  lemma IdleStays(rule: Rule<Frame>, s: State, action: Action, id: nat)
    requires Allowed(rule, s, action) && LeavesAlive([action], id)
    requires id in s.server.runs && Idle(rule, s.server.runs[id]) && action != Core(AssemblyRuns.ReadCursor(id))
    ensures
      var next := After(rule, s, action);
      && id in next.server.runs && next.server.runs[id] == s.server.runs[id]
      && (next.server.cursor == s.server.cursor || RecordsForAnother(action, id))
  {
    hide NextGroup, Enabled, Next, WindowOf, WithWindow, Lists, AfterReceive;
    assert [action][0] == action;
  }

  /** The page persists nothing more once the session is stopped. */
  lemma HistoryStays(rule: Rule<Frame>, s: State, action: Action)
    requires Inv(rule, s) && Allowed(rule, s, action) && s.server.stopping
    ensures After(rule, s, action).client.history == s.client.history
  {
    hide ClientInv, AssemblyRuns.ServerInv, AssemblyRuns.Enabled, AssemblyRuns.Next, Enabled, Next, AfterReceive;
    if action.Page? {
      HistoryStep(s.client, s.server.chunks, action.step);
    }
  }

  lemma CursorMovesOn(rule: Rule<Frame>, s: State, action: Action)
    requires Allowed(rule, s, action)
    ensures After(rule, s, action).server.cursor >= s.server.cursor
    ensures s.server.stopping ==> After(rule, s, action).server.stopping
  {
    hide NextGroup, Enabled, Next, WindowOf, WithWindow, Lists, AfterReceive;
  }

  lemma ServerPart(rule: Rule<Frame>, s: State)
    requires Inv(rule, s)
    ensures AssemblyRuns.ServerInv(rule, s.client.history, s.server)
  {
    hide ClientInv, AssemblyRuns.ServerInv;
  }

  /** Once the session is stopped the history is complete, and the cursor only moves on. */
  lemma StoppedStep(rule: Rule<Frame>, s: State, action: Action)
    requires Inv(rule, s) && Allowed(rule, s, action) && s.server.stopping
    ensures
      var next := After(rule, s, action);
      && Inv(rule, next) && next.server.stopping && next.client.history == s.client.history
      && s.server.cursor <= next.server.cursor <= |s.client.history|
  {
    hide Inv, After, Allowed;
    ActionKeeps(rule, s, action);
    HistoryStays(rule, s, action);
    CursorMovesOn(rule, s, action);
    var next := After(rule, s, action);
    ServerPart(rule, next);
    AssemblyRuns.WindowsTileHistory(rule, next.client.history, next.server) by { hide AssemblyRuns.ServerInv; }
  }

  lemma {:induction false} StoppedRun(rule: Rule<Frame>, s: State, actions: seq<Action>)
    requires Inv(rule, s) && IsRun(rule, s, actions) && s.server.stopping
    ensures
      var end := End(rule, s, actions);
      && Inv(rule, end) && end.server.stopping && end.client.history == s.client.history
      && s.server.cursor <= end.server.cursor <= |s.client.history|
    decreases |actions|
  {
    hide Inv, Allowed, After;
    if actions == [] {
      AssemblyRuns.WindowsTileHistory(rule, s.client.history, s.server) by { ServerPart(rule, s); }
    } else {
      StoppedStep(rule, s, actions[0]);
      StoppedRun(rule, After(rule, s, actions[0]), actions[1..]);
    }
  }

  lemma LeavesAliveParts(actions: seq<Action>, id: nat)
    requires actions != [] && LeavesAlive(actions, id)
    ensures LeavesAlive([actions[0]], id) && LeavesAlive(actions[1..], id)
  {
  }

  /**
   * While a run is idle it records nothing: the cursor reaches the end exactly when it was there
   * before, or when another run takes it there.
   */
  lemma {:induction false} IdleRun(rule: Rule<Frame>, s: State, actions: seq<Action>, id: nat)
    requires Inv(rule, s) && IsRun(rule, s, actions) && s.server.stopping && LeavesAlive(actions, id)
    requires id in s.server.runs && Idle(rule, s.server.runs[id])
    requires Core(AssemblyRuns.ReadCursor(id)) !in actions
    ensures
      var end := End(rule, s, actions);
      && id in end.server.runs && end.server.runs[id] == s.server.runs[id]
      && (end.server.cursor == |s.client.history| <==>
           s.server.cursor == |s.client.history| || SealedByAnother(rule, s, actions, id))
    decreases |actions|
  {
    hide Inv, Allowed, After, Idle, LeavesAlive, RecordsForAnother;
    if actions != [] {
      var next := After(rule, s, actions[0]);
      LeavesAliveParts(actions, id);
      StoppedStep(rule, s, actions[0]);
      IdleStays(rule, s, actions[0], id);
      StoppedRun(rule, next, actions[1..]);
      IdleRun(rule, next, actions[1..], id);
    }
  }

  lemma RunSurvives(rule: Rule<Frame>, s: State, action: Action, id: nat)
    requires Allowed(rule, s, action) && LeavesAlive([action], id) && id in s.server.runs
    ensures id in After(rule, s, action).server.runs
  {
    assert [action][0] == action;
    hide NextGroup, Enabled, Next, WindowOf, WithWindow, Lists, AfterReceive;
  }

  lemma AlignedStep(rule: Rule<Frame>, s: State, action: Action, id: nat)
    requires Inv(rule, s) && Allowed(rule, s, action) && LeavesAlive([action], id)
    requires id in s.server.runs && s.server.runs[id].seal && s.server.stopping
    requires AssemblyRuns.Aligned(s.client.history, s.server.runs[id])
    ensures
      var next := After(rule, s, action);
      && id in next.server.runs && next.server.runs[id].seal
      && AssemblyRuns.Aligned(s.client.history, next.server.runs[id])
  {
    ServerPart(rule, s);
    RunSurvives(rule, s, action, id);
    hide Inv, Enabled, Next, AfterReceive, AssemblyRuns.Aligned, AssemblyRuns.ServerInv, AssemblyRuns.Next, LeavesAlive;
    match action
    case Page(_) =>
    case Deliver(message) =>
      AssemblyRuns.AlignmentStays(rule, s.client.history, s.server, AssemblyRuns.Receive(message), id);
    case StopSession =>
      AssemblyRuns.AlignmentStays(rule, s.client.history, s.server, AssemblyRuns.StopSession, id);
    case Core(step) =>
      AssemblyRuns.AlignmentStays(rule, s.client.history, s.server, step, id);
  }

  lemma {:induction false} AlignedRun(rule: Rule<Frame>, s: State, actions: seq<Action>, id: nat)
    requires Inv(rule, s) && IsRun(rule, s, actions) && s.server.stopping && LeavesAlive(actions, id)
    requires id in s.server.runs && s.server.runs[id].seal
    requires AssemblyRuns.Aligned(s.client.history, s.server.runs[id])
    ensures
      var end := End(rule, s, actions);
      && id in end.server.runs && end.server.runs[id].seal
      && AssemblyRuns.Aligned(end.client.history, end.server.runs[id])
    decreases |actions|
  {
    hide Inv, Allowed, After, LeavesAlive, AssemblyRuns.Aligned;
    if actions != [] {
      LeavesAliveParts(actions, id);
      StoppedStep(rule, s, actions[0]);
      AlignedStep(rule, s, actions[0], id);
      AlignedRun(rule, After(rule, s, actions[0]), actions[1..], id);
    }
  }

  /** A part of the history that lists everything above the cursor begins there. */
  lemma HeadOfList(chunks: map<nat, Frame>, cursor: nat, list: seq<Frame>)
    requires Lists(list, chunks, cursor) && list != []
    ensures list[0].sequence > cursor
  {
  }

  lemma NumberedAt(history: seq<Frame>, i: nat)
    requires Numbered(history, 1) && i < |history|
    ensures history[i].sequence == i + 1
  {
  }

  /** The first frame above the cursor stands in the list. */
  lemma FoundInList(chunks: map<nat, Frame>, history: seq<Frame>, cursor: nat, list: seq<Frame>) returns (i: nat)
    requires AssemblyRuns.Stored(chunks, history) && AssemblyRuns.Complete(chunks, history)
    requires Lists(list, chunks, cursor) && cursor < |history|
    ensures i < |list| && list[i] == history[cursor]
  {
    assert cursor + 1 in chunks && chunks[cursor + 1] == history[cursor];
    i :| 0 <= i < |list| && list[i] == chunks[cursor + 1];
  }

  lemma ListStartsBehind(chunks: map<nat, Frame>, history: seq<Frame>, cursor: nat, list: seq<Frame>)
    requires Numbered(history, 1) && AssemblyRuns.Stored(chunks, history) && AssemblyRuns.Complete(chunks, history)
    requires Lists(list, chunks, cursor)
    requires |list| <= |history| && list == history[|history| - |list|..] && list != [] && cursor <= |history|
    ensures list == history[cursor..]
  {
    hide *;
    var behind := |history| - |list|;
    assert list[0] == history[behind];
    HeadOfList(chunks, cursor, list);
    NumberedAt(history, behind);
    var i := FoundInList(chunks, history, cursor, list);
    assert list[i] == history[behind + i];
    NumberedAt(history, behind + i);
    NumberedAt(history, cursor);
  }

  lemma ListedFits(rule: Rule<Frame>, history: seq<Frame>, server: AssemblyRuns.Server, id: nat)
    requires AssemblyRuns.ServerInv(rule, history, server)
    requires id in server.runs && server.runs[id].seal
    ensures
      var list := server.runs[id].list;
      |list| <= |history| && list == history[|history| - |list|..]
  {
    assert AssemblyRuns.RunFits(rule, history, server.cursor, server.stopping, server.runs[id]);
    hide AssemblyRuns.Drawn, AssemblyRuns.NextAt, IsBoundary;
  }

  lemma ServerFacts(rule: Rule<Frame>, history: seq<Frame>, server: AssemblyRuns.Server)
    requires AssemblyRuns.ServerInv(rule, history, server) && server.stopping
    ensures Numbered(history, 1) && AssemblyRuns.Stored(server.chunks, history)
    ensures AssemblyRuns.Complete(server.chunks, history) && server.cursor <= |history|
  {
    AssemblyRuns.WindowsTileHistory(rule, history, server);
    hide Numbered, AssemblyRuns.Stored, AssemblyRuns.Complete, AssemblyRuns.Recorded, Holds, Consecutive, Pcm;
  }

  lemma ListStep(rule: Rule<Frame>, s: State, id: nat, list: seq<Frame>)
    requires Inv(rule, s) && Allowed(rule, s, Core(AssemblyRuns.ListChunks(id, true, list)))
    ensures s.server.stopping && Lists(list, s.server.chunks, s.server.cursor) && list != []
    ensures |list| <= |s.client.history| && list == s.client.history[|s.client.history| - |list|..]
  {
    CoreKeeps(rule, s, AssemblyRuns.ListChunks(id, true, list));
    var next := After(rule, s, Core(AssemblyRuns.ListChunks(id, true, list)));
    hide Inv, Lists;
    ServerPart(rule, next);
    hide AssemblyRuns.ServerInv;
    ListedFits(rule, s.client.history, next.server, id);
  }

  /** A sealing run lists everything above the cursor. */
  lemma ListIsRest(rule: Rule<Frame>, s: State, id: nat, list: seq<Frame>)
    requires Inv(rule, s) && Allowed(rule, s, Core(AssemblyRuns.ListChunks(id, true, list)))
    ensures s.server.cursor <= |s.client.history| && list == s.client.history[s.server.cursor..]
  {
    hide *;
    ServerPart(rule, s);
    ListStep(rule, s, id, list);
    ServerFacts(rule, s.client.history, s.server);
    ListStartsBehind(s.server.chunks, s.client.history, s.server.cursor, list);
  }

  lemma ListedIsIdle(rule: Rule<Frame>, list: seq<Frame>)
    ensures Idle(rule, AssemblyRuns.Listed(list, true))
  {
  }

  lemma AllRecorded(rule: Rule<Frame>, s: State)
    requires Inv(rule, s)
    ensures s.server.cursor == |s.client.history| ==> WindowPcm(s.server.windows) == Pcm(s.client.history)
  {
    ServerPart(rule, s);
    hide AssemblyRuns.ServerInv, Inv, WindowPcm, Pcm;
    AssemblyRuns.WindowsTileHistory(rule, s.client.history, s.server);
    assert s.client.history[..|s.client.history|] == s.client.history;
  }

  /** Reading the cursor decides: in line with its list, or idle for good. */
  lemma ReadDecides(rule: Rule<Frame>, s: State, id: nat, cursor: nat)
    requires Inv(rule, s) && Allowed(rule, s, Core(AssemblyRuns.ReadCursor(id)))
    requires cursor < |s.client.history| && cursor <= s.server.cursor
    requires s.server.runs[id] == AssemblyRuns.Listed(s.client.history[cursor..], true)
    ensures
      var run := After(rule, s, Core(AssemblyRuns.ReadCursor(id))).server.runs[id];
      && run.seal
      && if s.server.cursor == cursor then AssemblyRuns.Aligned(s.client.history, run) else Idle(rule, run)
  {
    ServerPart(rule, s);
    hide Inv, NextGroup, AssemblyRuns.ServerInv;
    AssemblyRuns.SealingRunStartsIff(rule, s.client.history, s.server, id);
  }

  lemma {:induction false} NoSecondRead(rule: Rule<Frame>, s: State, actions: seq<Action>, id: nat)
    requires IsRun(rule, s, actions) && LeavesAlive(actions, id)
    requires id in s.server.runs && Idle(rule, s.server.runs[id]) && !s.server.runs[id].Listed?
    ensures Core(AssemblyRuns.ReadCursor(id)) !in actions
    decreases |actions|
  {
    hide After, Idle, LeavesAlive, RecordsForAnother, Enabled, Lists, NextGroup;
    if actions != [] {
      LeavesAliveParts(actions, id);
      assert actions[0] != Core(AssemblyRuns.ReadCursor(id));
      IdleStays(rule, s, actions[0], id);
      NoSecondRead(rule, After(rule, s, actions[0]), actions[1..], id);
      assert actions == [actions[0]] + actions[1..];
    }
  }

  /**
   * Exactly when the stop flush does its work. A sealing run lists the chunks, waits, reads the
   * cursor, works and stops, while anything else goes on, and is not killed. When it stops, the
   * whole recording is in windows if and only if the cursor did not move between its two reads, or
   * another run has recorded the last window.
   */
  lemma SealingRunEndsIff(rule: Rule<Frame>, s: State, id: nat, list: seq<Frame>, wait: seq<Action>, work: seq<Action>)
    requires Inv(rule, s) && Allowed(rule, s, Core(AssemblyRuns.ListChunks(id, true, list)))
    requires
      var listed := After(rule, s, Core(AssemblyRuns.ListChunks(id, true, list)));
      && IsRun(rule, listed, wait) && LeavesAlive(wait, id) && Core(AssemblyRuns.ReadCursor(id)) !in wait
      && var waited := End(rule, listed, wait);
         && Allowed(rule, waited, Core(AssemblyRuns.ReadCursor(id)))
         && var read := After(rule, waited, Core(AssemblyRuns.ReadCursor(id)));
            && IsRun(rule, read, work) && LeavesAlive(work, id)
            && Allowed(rule, End(rule, read, work), Core(AssemblyRuns.FinishRun(id)))
    ensures
      var listed := After(rule, s, Core(AssemblyRuns.ListChunks(id, true, list)));
      var waited := End(rule, listed, wait);
      var read := After(rule, waited, Core(AssemblyRuns.ReadCursor(id)));
      var end := End(rule, read, work);
      && (end.server.cursor == |end.client.history| <==>
           || waited.server.cursor == s.server.cursor
           || SealedByAnother(rule, listed, wait, id) || SealedByAnother(rule, read, work, id))
      && (end.server.cursor == |end.client.history| ==> WindowPcm(end.server.windows) == Pcm(end.client.history))
  {
    hide Inv, IsRun, End, LeavesAlive, SealedByAnother, WindowPcm, Pcm, AssemblyRuns.Aligned, Idle;
    var listed := After(rule, s, Core(AssemblyRuns.ListChunks(id, true, list)));
    var waited := End(rule, listed, wait);
    var read := After(rule, waited, Core(AssemblyRuns.ReadCursor(id)));
    var end := End(rule, read, work);
    ListIsRest(rule, s, id, list);
    StoppedStep(rule, s, Core(AssemblyRuns.ListChunks(id, true, list)));
    ListedIsIdle(rule, list);
    StoppedRun(rule, listed, wait);
    IdleRun(rule, listed, wait, id);
    StoppedStep(rule, waited, Core(AssemblyRuns.ReadCursor(id)));
    StoppedRun(rule, read, work);
    ReadDecides(rule, waited, id, s.server.cursor);
    AllRecorded(rule, end);
    if waited.server.cursor == s.server.cursor {
      AlignedRun(rule, read, work, id);
      ServerPart(rule, end);
      AssemblyRuns.AlignedRunSealsAll(rule, end.client.history, end.server, id) by {
        hide AssemblyRuns.ServerInv, AssemblyRuns.Enabled;
      }
    } else {
      NoSecondRead(rule, read, work, id);
      IdleRun(rule, read, work, id);
    }
  }

  lemma {:induction false} PersistedPcm(history: seq<Frame>, base: nat, handed: seq<seq<real>>, k: nat)
    requires base + k <= |history| && k <= |handed|
    requires forall i | base <= i < base + k :: history[i].pcm == PcmBytes(handed[i - base])
    ensures Pcm(history[base..base + k]) == PcmBytes(Flatten(handed[..k]))
  {
    if k > 0 {
      var last := handed[k - 1];
      PersistedPcm(history, base, handed, k - 1);
      assert history[base..base + k][..k - 1] == history[base..base + k - 1];
      assert history[base..base + k][k - 1] == history[base + (k - 1)];
      JoinThrough(handed, k - 1);
      PcmBytesAppend(Flatten(handed[..k - 1]), last);
    }
  }

  /** A page that has saved its queue has persisted, sample for sample, all it was handed. */
  lemma PageIsPersisted(rule: Rule<Frame>, actions: seq<Action>)
    requires IsRun(rule, Initial(), actions) && End(rule, Initial(), actions).client.queue == []
    ensures
      var c := End(rule, Initial(), actions).client;
      c.base <= |c.history| && Pcm(c.history[c.base..]) == PcmBytes(Flatten(c.handed))
  {
    hide Carries, CarriesAll, Committed, Covered, PageKnows, WriterFits, IntentFits, Numbered, PcmBytes;
    hide AssemblyRuns.ServerInv;
    InitialInv(rule);
    RunKeeps(rule, Initial(), actions);
    var c := End(rule, Initial(), actions).client;
    PersistedPcm(c.history, c.base, c.handed, |c.handed|);
    assert c.history[c.base..c.base + |c.handed|] == c.history[c.base..];
    assert c.handed[..|c.handed|] == c.handed;
  }

  /** What the page has accepted since it was activated, read off the actions. */
  function HeardIn(action: Action, before: seq<real>): seq<real> {
    match action
    case Page(Activate(_, _)) => []
    case Page(AcceptBlock(block)) => before + block
    case _ => before
  }

  function Heard(actions: seq<Action>, before: seq<real>): seq<real>
    decreases |actions|
  {
    if actions == [] then before else Heard(actions[1..], HeardIn(actions[0], before))
  }

  lemma AcceptedStep(rule: Rule<Frame>, s: State, action: Action)
    requires Allowed(rule, s, action)
    ensures After(rule, s, action).client.accepted == HeardIn(action, s.client.accepted)
  {
    hide Capture.Frames, Capture.AllFrames, Resampler.Pushed, Resampler.Direct, AssemblyRuns.Next, Enabled;
    hide NotYetHanded, StopFrames, FrameBytes, RecoverNextSequence, NextFramesToSend, Messages, Receive, AfterReceive;
  }

  lemma {:induction false} AcceptedIsHeard(rule: Rule<Frame>, s: State, actions: seq<Action>)
    requires IsRun(rule, s, actions)
    ensures End(rule, s, actions).client.accepted == Heard(actions, s.client.accepted)
    decreases |actions|
  {
    hide Allowed, After;
    if actions != [] {
      AcceptedStep(rule, s, actions[0]);
      AcceptedIsHeard(rule, After(rule, s, actions[0]), actions[1..]);
    }
  }

  lemma WholePage(rule: Rule<Frame>, actions: seq<Action>)
    requires IsRun(rule, Initial(), actions) && End(rule, Initial(), actions).client.whole
    ensures
      var c := End(rule, Initial(), actions).client;
      c.rate > 0.0 && Flatten(c.handed) == Resampler.Direct(c.accepted, c.rate)
  {
    hide Carries, CarriesAll, Committed, Covered, PageKnows, WriterFits, IntentFits, Numbered, PcmBytes;
    hide AssemblyRuns.ServerInv, RecordingFits, Capture.AllFrames, Resampler.Direct;
    InitialInv(rule);
    RunKeeps(rule, Initial(), actions);
    var c := End(rule, Initial(), actions).client;
    Capture.AllFramesFit(Resampler.Direct(c.accepted, c.rate));
  }

  /** What the page has heard, at what rate, and what was there before it. */
  predicate SamePage(c: Client, later: Client) {
    later.base == c.base && later.rate == c.rate && later.accepted == c.accepted
  }

  /** A page that is stopped while it records has handed over the whole recording. */
  lemma StopMakesWhole(rule: Rule<Frame>, s: State)
    requires Allowed(rule, s, Page(Stop)) && s.client.phase.Recording?
    ensures After(rule, s, Page(Stop)).client.whole && SamePage(s.client, After(rule, s, Page(Stop)).client)
  {
    hide Capture.AllFrames, Resampler.Direct, Resampler.Pushed;
  }

  lemma WholeStep(rule: Rule<Frame>, s: State, action: Action)
    requires Inv(rule, s) && Allowed(rule, s, action) && s.client.whole
    requires action == Page(Refresh) ==> s.client.queue == []
    ensures After(rule, s, action).client.whole && SamePage(s.client, After(rule, s, action).client)
  {
    hide Carries, CarriesAll, Committed, Covered, PageKnows, WriterFits, Numbered, RecordingFits;
    hide AssemblyRuns.ServerInv, AssemblyRuns.Enabled, AssemblyRuns.Next, Capture.Frames, Capture.AllFrames;
    hide Resampler.Direct, Resampler.Pushed, IntentFits;
  }

  /** Nothing takes that back but a refresh; whatever page and network do otherwise, the page stays whole. */
  lemma {:induction false} WholeStays(rule: Rule<Frame>, s: State, actions: seq<Action>)
    requires Inv(rule, s) && IsRun(rule, s, actions) && s.client.whole && Page(Refresh) !in actions
    ensures End(rule, s, actions).client.whole && SamePage(s.client, End(rule, s, actions).client)
    decreases |actions|
  {
    hide Inv, Allowed, After;
    if actions != [] {
      assert actions[0] in actions;
      ActionKeeps(rule, s, actions[0]);
      WholeStep(rule, s, actions[0]);
      WholeStays(rule, After(rule, s, actions[0]), actions[1..]);
    }
  }

  /**
   * From microphone to windows. Once a page that was stopped while recording (`whole`) has persisted its
   * queue, and Core has recorded windows to the end, the windows hold what earlier pages had
   * persisted and then the direct resampling of every sample that the worklet delivered to this
   * page, as if it had been converted in one piece.
   */
  lemma MicrophoneToWindows(rule: Rule<Frame>, actions: seq<Action>)
    requires IsRun(rule, Initial(), actions)
    requires
      var s := End(rule, Initial(), actions);
      s.client.whole && s.client.queue == [] && s.server.cursor == |s.client.history|
    ensures
      var s := End(rule, Initial(), actions);
      && s.client.base <= |s.client.history| && s.client.rate > 0.0
      && WindowPcm(s.server.windows)
         == Pcm(s.client.history[..s.client.base])
          + PcmBytes(Resampler.Direct(Heard(actions, []), s.client.rate))
  {
    hide Resampler.Direct, PcmBytes, Pcm, WindowPcm, IsRun, End, Heard;
    var c := End(rule, Initial(), actions).client;
    WindowsAreTheRecording(rule, actions);
    PageIsPersisted(rule, actions);
    WholePage(rule, actions);
    AcceptedIsHeard(rule, Initial(), actions);
    assert c.history[..|c.history|] == c.history == c.history[..c.base] + c.history[c.base..];
    PcmAppend(c.history[..c.base], c.history[c.base..]);
  }

  /**
   * The same without the encoding: read back as 16-bit samples, what the windows hold behind the
   * earlier pages sounds like the resampled recording, value by value.
   */
  lemma WindowsSoundLikeMicrophone(rule: Rule<Frame>, actions: seq<Action>)
    requires IsRun(rule, Initial(), actions)
    requires
      var s := End(rule, Initial(), actions);
      s.client.whole && s.client.queue == [] && s.server.cursor == |s.client.history|
    ensures
      var s := End(rule, Initial(), actions);
      && s.client.base <= |s.client.history| && s.client.rate > 0.0
      && var earlier := |Pcm(s.client.history[..s.client.base])|;
      && earlier <= |WindowPcm(s.server.windows)|
      && var pcm := WindowPcm(s.server.windows)[earlier..];
      && |pcm| % 2 == 0
      && SoundsLike(Resampler.Direct(Heard(actions, []), s.client.rate), PcmSamples(pcm))
  {
    MicrophoneToWindows(rule, actions);
    var s := End(rule, Initial(), actions);
    var recording := Resampler.Direct(Heard(actions, []), s.client.rate);
    PcmIsHeard(recording);
    var earlier := Pcm(s.client.history[..s.client.base]);
    hide *;
    assert (earlier + PcmBytes(recording))[|earlier|..] == PcmBytes(recording);
  }

  /**
   * A straight line at the microphone is a straight line in the windows: value `k` behind the
   * earlier pages is within one step of the line at `k / 16000` seconds.
   */
  lemma LineIsHeardInWindows(rule: Rule<Frame>, actions: seq<Action>, a: real, b: real, k: nat)
    requires IsRun(rule, Initial(), actions)
    requires
      var s := End(rule, Initial(), actions);
      s.client.whole && s.client.queue == [] && s.server.cursor == |s.client.history| && s.client.rate > 0.0
    requires
      var c := End(rule, Initial(), actions).client;
      && Resampler.OnLine(Heard(actions, []), a, b, c.rate)
      && Resampler.Inside(k, |Heard(actions, [])|, c.rate)
    requires -1.0 <= a + b * (k as real / 16000.0) <= 1.0
    ensures
      var s := End(rule, Initial(), actions);
      && s.client.base <= |s.client.history|
      && var earlier := |Pcm(s.client.history[..s.client.base])|;
      && earlier + 2 * k + 1 < |WindowPcm(s.server.windows)|
      && var pcm := WindowPcm(s.server.windows)[earlier..];
      && var value := FromLittleEndian16(pcm[2 * k], pcm[2 * k + 1]);
      && -1.0 <= value as real - (a + b * (k as real / 16000.0)) * 32767.5 <= 1.0
  {
    WindowsSoundLikeMicrophone(rule, actions);
    Resampler.LineIsKept(Heard(actions, []), a, b, End(rule, Initial(), actions).client.rate, k);
    hide Resampler.OnLine, Resampler.Direct, Resampler.Inside, Pcm, WindowPcm, IsRun, End, Heard, FromLittleEndian16;
  }

  /** A run is a run of its first part and then of the rest. */
  lemma {:induction false} RunSplits(rule: Rule<Frame>, s: State, first: seq<Action>, rest: seq<Action>)
    requires IsRun(rule, s, first + rest)
    ensures IsRun(rule, s, first) && IsRun(rule, End(rule, s, first), rest)
    ensures End(rule, s, first + rest) == End(rule, End(rule, s, first), rest)
    decreases |first|
  {
    hide Allowed, After;
    if first == [] {
      assert first + rest == rest;
    } else {
      assert (first + rest)[1..] == first[1..] + rest;
      RunSplits(rule, After(rule, s, first[0]), first[1..], rest);
    }
  }

  lemma FirstOfRun(rule: Rule<Frame>, s: State, action: Action, rest: seq<Action>)
    requires IsRun(rule, s, [action] + rest)
    ensures Allowed(rule, s, action) && IsRun(rule, After(rule, s, action), rest)
    ensures End(rule, s, [action] + rest) == End(rule, After(rule, s, action), rest)
  {
    hide Allowed, After;
    assert ([action] + rest)[1..] == rest;
  }

  /**
   * The same, read off the actions: whatever happened before, let the page be stopped while it
   * records, and not be refreshed afterwards. When its queue is empty and Core has recorded to the
   * end, the windows hold, behind what earlier pages had persisted, the direct resampling of
   * every sample that was delivered before the stop.
   */
  lemma StoppedCourseIsInWindows(rule: Rule<Frame>, before: seq<Action>, after: seq<Action>)
    requires IsRun(rule, Initial(), before) && End(rule, Initial(), before).client.phase.Recording?
    requires IsRun(rule, Initial(), before + ([Page(Stop)] + after)) && Page(Refresh) !in after
    requires
      var s := End(rule, Initial(), before + ([Page(Stop)] + after));
      s.client.queue == [] && s.server.cursor == |s.client.history|
    ensures
      var c := End(rule, Initial(), before).client;
      var s := End(rule, Initial(), before + ([Page(Stop)] + after));
      && c.base <= |s.client.history| && c.rate > 0.0
      && WindowPcm(s.server.windows)
         == Pcm(s.client.history[..c.base]) + PcmBytes(Resampler.Direct(Heard(before, []), c.rate))
  {
    var recording := End(rule, Initial(), before);
    var actions := before + ([Page(Stop)] + after);
    RunSplits(rule, Initial(), before, [Page(Stop)] + after);
    FirstOfRun(rule, recording, Page(Stop), after);
    InitialInv(rule);
    RunKeeps(rule, Initial(), before);
    hide Resampler.Direct, PcmBytes, Pcm, WindowPcm, IsRun, End, Heard, Inv, Allowed, After;
    var stopped := After(rule, recording, Page(Stop));
    ActionKeeps(rule, recording, Page(Stop));
    StopMakesWhole(rule, recording);
    WholeStays(rule, stopped, after);
    MicrophoneToWindows(rule, actions);
    AcceptedIsHeard(rule, Initial(), actions);
    AcceptedIsHeard(rule, Initial(), before);
  }
}
