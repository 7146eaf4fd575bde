/**
 * No reachable state is a dead end: once the user has pressed stop, whatever was lost, repeated
 * or interrupted so far, there is a way on that commits every persisted frame, stops the
 * session and puts the whole recording into windows.
 */
module AudioRecovery {
  import opened FrameCodec
  import opened Segmenter
  import opened Windows
  import opened Assembler
  import opened Outbox
  import opened AudioProtocol
  import AssemblyRuns

  lemma {:induction false} Then(rule: Rule<Frame>, s: State, a: seq<Action>, b: seq<Action>)
    requires IsRun(rule, s, a) && IsRun(rule, End(rule, s, a), b)
    ensures IsRun(rule, s, a + b) && End(rule, s, a + b) == End(rule, End(rule, s, a), b)
    decreases |a|
  {
    hide Allowed, After;
    if a == [] {
      assert a + b == b;
    } else {
      assert (a + b)[1..] == a[1..] + b;
      Then(rule, After(rule, s, a[0]), a[1..], b);
    }
  }

  /** Core has stored chunks and done nothing else, and the recording is what it was. */
  predicate OnlyStored(s: State, later: State) {
    var c, d := s.client, later.client;
    && later.server == s.server.(chunks := later.server.chunks)
    && (d.base, d.handed, d.queue) == (c.base, c.handed, c.queue)
    && (d.accepted, d.rate, d.whole) == (c.accepted, c.rate, c.whole)
  }

  lemma One(rule: Rule<Frame>, s: State, action: Action)
    requires Allowed(rule, s, action)
    ensures IsRun(rule, s, [action]) && End(rule, s, [action]) == After(rule, s, action)
  {
  }

  lemma Two(rule: Rule<Frame>, s: State, a: Action, b: Action)
    requires Allowed(rule, s, a) && Allowed(rule, After(rule, s, a), b)
    ensures IsRun(rule, s, [a, b]) && End(rule, s, [a, b]) == After(rule, After(rule, s, a), b)
  {
    hide Allowed, After;
    One(rule, s, a);
    One(rule, After(rule, s, a), b);
    Then(rule, s, [a], [b]);
    assert [a] + [b] == [a, b];
  }

  lemma {:induction false} Enumerate(numbers: set<nat>) returns (order: seq<nat>)
    ensures forall n :: n in order <==> n in numbers
    ensures forall i, j | 0 <= i < j < |order| :: order[i] != order[j]
    decreases numbers
  {
    if numbers == {} {
      order := [];
    } else {
      var n :| n in numbers;
      var rest := Enumerate(numbers - {n});
      order := [n] + rest;
    }
  }

  lemma FreshId(numbers: set<nat>) returns (id: nat)
    ensures id !in numbers
  {
    var order := Enumerate(numbers);
    AboveAll(order, 0);
    id := Above(order, 0);
  }

  /** The page drains its outbox and accepts no more audio. */
  ghost predicate Draining(c: Client) {
    c.phase.Draining? && c.intent.StopPending? && c.queue == [] && c.saved.None?
  }

  /** The oldest frame of the outbox that can be sent, and its bytes. */
  lemma PickFrame(c: Client) returns (order: seq<nat>, n: nat)
    requires c.pending != map[]
    ensures Enumerates(order, c.pending) && n in c.pending && n in NextFramesToSend(order, {})
  {
    order := Enumerate(c.pending.Keys);
    assert c.pending.Keys == {} ==> c.pending == map[];
    var k :| k in c.pending.Keys;
    WaitingFits(order, {});
    assert k in Waiting(order, {});
    n := NextFramesToSend(order, {})[0];
    NextFramesFit(order, {});
  }

  /** A frame on the wire is acknowledged under its own number. */
  lemma AcknowledgedAs(rule: Rule<Frame>, s: State, n: nat, message: seq<Byte>)
    requires Inv(rule, s) && message in s.client.net
    requires ParseFrame(message).Ok? && ParseFrame(message).value.sequence == n
    ensures n in Acknowledged(Receive(s.server.chunks, message))
  {
    DeliverKeeps(rule, s, message);
    hide Inv, ParseFrame;
  }

  /** Reconnecting and sending puts a pending frame on the wire. */
  lemma SendOne(rule: Rule<Frame>, s: State) returns (actions: seq<Action>, n: nat)
    requires Inv(rule, s) && Draining(s.client) && s.client.pending != map[]
    ensures IsRun(rule, s, actions) && Draining(End(rule, s, actions).client)
    ensures
      var later := End(rule, s, actions).client;
      && later.pending == s.client.pending && later.history == s.client.history
      && n in later.pending && later.pending[n] in later.net
    ensures OnlyStored(s, End(rule, s, actions))
  {
    hide Inv;
    var order;
    order, n := PickFrame(s.client);
    Two(rule, s, Page(Connect), Page(Send(order)));
    actions := [Page(Connect), Page(Send(order))];
  }

  /** Delivering a frame that is on the wire, and its acknowledgement, takes it off the page's list. */
  lemma AcknowledgeOne(rule: Rule<Frame>, s: State, n: nat) returns (actions: seq<Action>)
    requires Inv(rule, s) && Draining(s.client) && n in s.client.pending && s.client.pending[n] in s.client.net
    ensures IsRun(rule, s, actions) && Draining(End(rule, s, actions).client)
    ensures
      var later := End(rule, s, actions).client;
      later.pending == s.client.pending - {n} && later.history == s.client.history
    ensures OnlyStored(s, End(rule, s, actions))
  {
    var message := s.client.pending[n];
    assert ParseFrame(message).Ok? && ParseFrame(message).value.sequence == n by {
      hide CarriesAll, Covered, PageKnows, WriterFits, IntentFits, RecordingFits, Committed, ParseFrame;
      hide AssemblyRuns.ServerInv;
    }
    hide Inv, ParseFrame, Receive, AfterReceive;
    AcknowledgedAs(rule, s, n, message);
    Two(rule, s, Deliver(message), Page(ReceiveAck(n)));
    actions := [Deliver(message), Page(ReceiveAck(n))];
  }

  lemma SmallerPending(pending: map<nat, seq<Byte>>, n: nat)
    requires n in pending
    ensures |pending - {n}| < |pending|
  {
    assert (pending - {n}).Keys == pending.Keys - {n};
  }

  lemma Nothing(rule: Rule<Frame>, s: State) returns (actions: seq<Action>)
    ensures IsRun(rule, s, actions) && End(rule, s, actions) == s
  {
    actions := [];
  }

  /** Retries can always finish: every pending frame can still be acknowledged. */
  lemma {:induction false} Drain(rule: Rule<Frame>, s: State) returns (actions: seq<Action>)
    requires Inv(rule, s) && Draining(s.client)
    ensures IsRun(rule, s, actions)
    ensures
      var later := End(rule, s, actions).client;
      Draining(later) && later.pending == map[] && later.history == s.client.history
    ensures OnlyStored(s, End(rule, s, actions))
    decreases |s.client.pending|
  {
    hide Inv, Draining, IsRun, End;
    if s.client.pending == map[] {
      actions := Nothing(rule, s);
    } else {
      var send, n := SendOne(rule, s);
      var sent := End(rule, s, send);
      RunKeeps(rule, s, send);
      var acknowledge := AcknowledgeOne(rule, sent, n);
      var acknowledged := End(rule, sent, acknowledge);
      RunKeeps(rule, sent, acknowledge);
      SmallerPending(sent.client.pending, n);
      var rest := Drain(rule, acknowledged);
      Then(rule, s, send, acknowledge);
      Then(rule, s, send + acknowledge, rest);
      actions := send + acknowledge + rest;
    }
  }

  /** The session is stopped and a sealing run stands in line with its own list. */
  ghost predicate Sealing(s: State, id: nat) {
    && s.server.stopping
    && id in s.server.runs && s.server.runs[id].Working? && s.server.runs[id].seal
    && s.server.runs[id].index <= |s.server.runs[id].list|
    && AssemblyRuns.Aligned(s.client.history, s.server.runs[id])
  }

  /** One window of a sealing run. */
  lemma SealOne(rule: Rule<Frame>, s: State, id: nat) returns (actions: seq<Action>)
    requires Sealing(s, id)
    requires
      var r := s.server.runs[id];
      NextGroup(rule, r.list, r.seal, r.index, r.expected).Some?
    ensures IsRun(rule, s, actions) && Sealing(End(rule, s, actions), id)
    ensures
      var later := End(rule, s, actions);
      && later.client == s.client
      && later.server.runs[id].list == s.server.runs[id].list
      && later.server.runs[id].index > s.server.runs[id].index
  {
    hide NextGroup, WindowOf, WithWindow;
    Two(rule, s, Core(AssemblyRuns.EnqueueJob(id)), Core(AssemblyRuns.RecordWindow(id)));
    actions := [Core(AssemblyRuns.EnqueueJob(id)), Core(AssemblyRuns.RecordWindow(id))];
  }

  lemma {:induction false} SealAll(rule: Rule<Frame>, s: State, id: nat) returns (actions: seq<Action>)
    requires Inv(rule, s) && Sealing(s, id)
    ensures IsRun(rule, s, actions)
    ensures
      var later := End(rule, s, actions);
      && later.client == s.client && later.server.stopping
      && WindowPcm(later.server.windows) == Pcm(s.client.history)
    decreases |s.server.runs[id].list| - s.server.runs[id].index
  {
    hide NextGroup, IsRun, End, WindowPcm, Pcm, Sealed, NoneEmpty, WindowsOf, ClientInv, AssemblyRuns.ServerInv;
    var r := s.server.runs[id];
    if NextGroup(rule, r.list, r.seal, r.index, r.expected).None? {
      AssemblyRuns.AlignedRunSealsAll(rule, s.client.history, s.server, id);
      actions := Nothing(rule, s);
    } else {
      var first := SealOne(rule, s, id);
      RunKeeps(rule, s, first);
      var rest := SealAll(rule, End(rule, s, first), id);
      Then(rule, s, first, rest);
      actions := first + rest;
    }
  }

  /** The whole history above the cursor is what the store lists once everything is stored. */
  lemma TailIsListed(chunks: map<nat, Frame>, cursor: nat, history: seq<Frame>)
    requires AssemblyRuns.Stored(chunks, history) && AssemblyRuns.Complete(chunks, history) && Numbered(history, 1)
    requires cursor <= |history|
    ensures Lists(history[cursor..], chunks, cursor)
  {
    var list := history[cursor..];
    forall i | 0 <= i < |list|
      ensures list[i].sequence == cursor + i + 1 && list[i].sequence in chunks && chunks[list[i].sequence] == list[i]
    {
      assert list[i] == history[cursor + i];
    }
    forall n | n in chunks && n > cursor
      ensures chunks[n] in list
    {
      assert list[n - 1 - cursor] == chunks[n];
    }
  }

  /** A flush that is not overtaken starts in line with its list. */
  lemma BeginSealing(rule: Rule<Frame>, s: State, id: nat) returns (actions: seq<Action>)
    requires Inv(rule, s) && s.server.stopping && s.server.cursor < |s.client.history| && id !in s.server.runs
    ensures IsRun(rule, s, actions) && Sealing(End(rule, s, actions), id) && End(rule, s, actions).client == s.client
  {
    var list := s.client.history[s.server.cursor..];
    TailIsListed(s.server.chunks, s.server.cursor, s.client.history);
    hide Inv, Lists;
    Two(rule, s, Core(AssemblyRuns.ListChunks(id, true, list)), Core(AssemblyRuns.ReadCursor(id)));
    actions := [Core(AssemblyRuns.ListChunks(id, true, list)), Core(AssemblyRuns.ReadCursor(id))];
  }

  lemma SealStopped(rule: Rule<Frame>, s: State) returns (actions: seq<Action>)
    requires Inv(rule, s) && s.server.stopping
    ensures IsRun(rule, s, actions)
    ensures
      var later := End(rule, s, actions);
      && later.client == s.client && later.server.stopping
      && WindowPcm(later.server.windows) == Pcm(s.client.history)
  {
    hide IsRun, End, WindowPcm, Pcm, Sealing, ClientInv, AssemblyRuns.ServerInv;
    AssemblyRuns.WindowsTileHistory(rule, s.client.history, s.server);
    if s.server.cursor == |s.client.history| {
      assert s.client.history[..|s.client.history|] == s.client.history;
      actions := Nothing(rule, s);
    } else {
      var id := FreshId(s.server.runs.Keys);
      var begin := BeginSealing(rule, s, id);
      RunKeeps(rule, s, begin);
      var seal := SealAll(rule, End(rule, s, begin), id);
      Then(rule, s, begin, seal);
      actions := begin + seal;
    }
  }

  /** Reloading the page and asking again always leads to a page that only drains. */
  lemma Reopen(rule: Rule<Frame>, s: State) returns (actions: seq<Action>)
    requires Inv(rule, s) && s.client.intent.StopPending?
    ensures IsRun(rule, s, actions) && Draining(End(rule, s, actions).client)
    ensures End(rule, s, actions).client.history == s.client.history
  {
    hide Inv;
    Two(rule, s, Page(Refresh), Page(FinishPending));
    actions := [Page(Refresh), Page(FinishPending)];
  }

  lemma Return(rule: Rule<Frame>, s: State) returns (actions: seq<Action>)
    requires Inv(rule, s) && Draining(s.client) && s.client.pending == map[]
    ensures IsRun(rule, s, actions) && End(rule, s, actions).client.intent.StopAcknowledged?
    ensures End(rule, s, actions).client.history == s.client.history
    ensures OnlyStored(s, End(rule, s, actions))
  {
    hide Inv;
    One(rule, s, Page(StopReturns));
    actions := [Page(StopReturns)];
  }

  /** After the acknowledged stop, the session can be stopped and sealed to the end. */
  lemma CompleteAcknowledged(rule: Rule<Frame>, s: State) returns (actions: seq<Action>)
    requires Inv(rule, s) && s.client.intent.StopAcknowledged?
    ensures IsRun(rule, s, actions)
    ensures
      var later := End(rule, s, actions);
      && later.server.stopping && later.client.history == s.client.history
      && WindowPcm(later.server.windows) == Pcm(s.client.history)
  {
    hide Inv, IsRun, End, WindowPcm, Pcm;
    StopSessionKeeps(rule, s);
    One(rule, s, StopSession);
    var seal := SealStopped(rule, After(rule, s, StopSession));
    Then(rule, s, [StopSession], seal);
    actions := [StopSession] + seal;
  }

  /**
   * From every reachable state in which the user has asked to stop, the whole persisted
   * recording can still be committed, the session stopped and everything put into windows.
   */
  lemma EveryStopCanComplete(rule: Rule<Frame>, before: seq<Action>) returns (actions: seq<Action>)
    requires IsRun(rule, Initial(), before) && !End(rule, Initial(), before).client.intent.NoIntent?
    ensures
      var s := End(rule, Initial(), before);
      && IsRun(rule, s, actions)
      && var later := End(rule, s, actions);
         && later.server.stopping && later.client.history == s.client.history
         && WindowPcm(later.server.windows) == Pcm(s.client.history)
  {
    hide Inv, IsRun, End, WindowPcm, Pcm, Draining;
    InitialInv(rule);
    RunKeeps(rule, Initial(), before);
    var s := End(rule, Initial(), before);
    if s.client.intent.StopAcknowledged? {
      actions := CompleteAcknowledged(rule, s);
    } else {
      var reopen := Reopen(rule, s);
      var s1 := End(rule, s, reopen);
      RunKeeps(rule, s, reopen);
      var drain := Drain(rule, s1);
      var s2 := End(rule, s1, drain);
      RunKeeps(rule, s1, drain);
      var done := Return(rule, s2);
      var s3 := End(rule, s2, done);
      RunKeeps(rule, s2, done);
      var complete := CompleteAcknowledged(rule, s3);
      Then(rule, s, reopen, drain);
      Then(rule, s, reopen + drain, done);
      Then(rule, s, reopen + drain + done, complete);
      actions := reopen + drain + done + complete;
    }
  }
}
