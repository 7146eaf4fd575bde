/**
 * Replay followed by live delivery (crates/core-server/src/api.rs, `stream_events` and
 * `event_after_watermark`; crates/core-server/src/app.rs, persist before broadcast;
 * crates/event-store/src/lib.rs, `list_events`, `list_events_after`).
 *
 * One session, one browser that reconnects with the identity of the last event it has seen.
 * Emission is one atomic insert and broadcast.
 */
module EventStream {
  import opened Sequences

  /** The order of the log is by ingest time and then by identity. */
  datatype Event = Event(ingestedAt: int, id: int)

  predicate Less(a: Event, b: Event) {
    a.ingestedAt < b.ingestedAt || (a.ingestedAt == b.ingestedAt && a.id < b.id)
  }

  /** The log in the order of insertion is in the order of its keys. */
  ghost predicate Sorted(log: seq<Event>) {
    forall i, j | 0 <= i < j < |log| :: Less(log[i], log[j])
  }

  function Insert(event: Event, sorted: seq<Event>): seq<Event> {
    if sorted != [] && Less(event, sorted[|sorted| - 1])
    then Insert(event, sorted[..|sorted| - 1]) + [sorted[|sorted| - 1]]
    else sorted + [event]
  }

  predicate AfterMark(event: Event, mark: Option<Event>) {
    mark.None? || Less(mark.value, event)
  }

  /** The query: the events behind the cursor, sorted by key. */
  function Listed(log: seq<Event>, cursor: Option<Event>): seq<Event> {
    if log == [] then []
    else
      var n := |log| - 1;
      var before := Listed(log[..n], cursor);
      if AfterMark(log[n], cursor) then Insert(log[n], before) else before
  }

  /** One stream: its subscription starts before the snapshot is read. */
  datatype Connection =
    | Closed
    | Subscribed(queue: nat)
    | Streaming(history: seq<Event>, queue: nat, watermark: Option<Event>)

  datatype State = State(log: seq<Event>, connection: Connection, received: seq<Event>)

  datatype Step =
    | Emit(event: Event)
    | Subscribe
    | Snapshot
    | Replay
    | Live
    // The browser goes away, or the stream has fallen behind and ends.
    | Break

  function LastOf(events: seq<Event>): Option<Event> {
    if events == [] then None else Some(events[|events| - 1])
  }

  predicate Enabled(s: State, step: Step) {
    match step
    case Emit(event) => event !in s.log
    case Subscribe => s.connection.Closed?
    case Snapshot => s.connection.Subscribed?
    case Replay => s.connection.Streaming? && s.connection.history != []
    case Live => s.connection.Streaming? && s.connection.history == [] && s.connection.queue < |s.log|
    case Break => true
  }

  function Next(s: State, step: Step): State
    requires Enabled(s, step)
  {
    match step
    case Emit(event) => s.(log := s.log + [event])
    case Subscribe => s.(connection := Subscribed(|s.log|))
    case Snapshot =>
      var cursor := LastOf(s.received);
      var history := Listed(s.log, cursor);
      var watermark := if history != [] then LastOf(history) else cursor;
      s.(connection := Streaming(history, s.connection.queue, watermark))
    case Replay =>
      s.(received := s.received + [s.connection.history[0]],
         connection := s.connection.(history := s.connection.history[1..]))
    case Live =>
      var event := s.log[s.connection.queue];
      var next := s.(connection := s.connection.(queue := s.connection.queue + 1));
      if AfterMark(event, s.connection.watermark) then next.(received := s.received + [event]) else next
    case Break => s.(connection := Closed)
  }

  // What holds while the log is in order

  /** The watermark is the last event of a snapshot of `mark` events. */
  predicate Marks(log: seq<Event>, watermark: Option<Event>, mark: nat) {
    mark <= |log| && watermark == if mark == 0 then None else Some(log[mark - 1])
  }

  /**
   * Up to the watermark the events are replayed, and skipped when they come live; behind it
   * they are delivered as they come.
   */
  ghost predicate MarkFits(log: seq<Event>, queue: nat, upto: nat, replayed: bool, watermark: Option<Event>) {
    exists mark: nat :: Marks(log, watermark, mark)
      && (if queue <= mark then upto == mark else replayed && upto == queue)
  }

  /** How far into the log the stream has delivered, or is about to skip as delivered. */
  ghost predicate StreamFits(s: State) {
    match s.connection
    case Closed => true
    case Subscribed(queue) => queue <= |s.log|
    case Streaming(history, queue, watermark) =>
      var upto := |s.received| + |history|;
      && queue <= |s.log| && upto <= |s.log|
      && history == s.log[|s.received|..upto]
      && MarkFits(s.log, queue, upto, history == [], watermark)
  }

  /** The browser has exactly a beginning of the log. */
  ghost predicate Inv(s: State) {
    && Sorted(s.log)
    && s.received <= s.log
    && StreamFits(s)
  }

  lemma {:induction false} InsertAtEnd(event: Event, sorted: seq<Event>)
    requires sorted != [] ==> Less(sorted[|sorted| - 1], event)
    ensures Insert(event, sorted) == sorted + [event]
  {
  }

  lemma {:induction false} NothingIsListed(log: seq<Event>, received: seq<Event>, part: seq<Event>)
    requires Sorted(log) && received == log && part <= log && log != []
    ensures Listed(part, LastOf(received)) == []
  {
    if part != [] {
      var n := |part| - 1;
      NothingIsListed(log, received, part[..n]);
      assert part[n] == log[n];
      assert n < |log| - 1 ==> Less(log[n], log[|log| - 1]);
    }
  }

  /** In an ordered log, what lies behind a received beginning is the rest of the log. */
  lemma {:induction false} ListedIsRest(log: seq<Event>, received: seq<Event>)
    requires Sorted(log) && received <= log
    ensures Listed(log, LastOf(received)) == log[|received|..]
    decreases |log|
  {
    if log != [] {
      var n := |log| - 1;
      if |received| == |log| {
        NothingIsListed(log, received, log);
      } else {
        ListedIsRest(log[..n], received);
        var before := log[..n][|received|..];
        InsertAtEnd(log[n], before);
        assert log[|received|..] == before + [log[n]];
      }
    }
  }

  function Initial(): State {
    State([], Closed, [])
  }

  lemma InitialInv()
    ensures Inv(Initial())
  {
  }

  lemma EmitKeeps(s: State, event: Event)
    requires Inv(s) && (s.log != [] ==> Less(s.log[|s.log| - 1], event))
    ensures Inv(Next(s, Emit(event)))
  {
    var log := s.log + [event];
    forall i | 0 <= i < |s.log|
      ensures Less(s.log[i], event)
    {
      assert i < |s.log| - 1 ==> Less(s.log[i], s.log[|s.log| - 1]);
    }
    if s.connection.Streaming? {
      var mark: nat :| Marks(s.log, s.connection.watermark, mark)
        && (if s.connection.queue <= mark then |s.received| + |s.connection.history| == mark
            else s.connection.history == [] && |s.received| + |s.connection.history| == s.connection.queue);
      assert Marks(log, s.connection.watermark, mark);
    }
  }

  lemma SnapshotKeeps(s: State)
    requires Inv(s) && Enabled(s, Snapshot)
    ensures Inv(Next(s, Snapshot))
  {
    ListedIsRest(s.log, s.received);
    var next := Next(s, Snapshot);
    assert Marks(s.log, next.connection.watermark, |s.log|);
  }

  lemma ReplayKeeps(s: State)
    requires Inv(s) && Enabled(s, Replay)
    ensures Inv(Next(s, Replay))
  {
    hide Sorted, Marks;
    assert s.received + [s.connection.history[0]] == s.log[..|s.received| + 1];
    assert |s.received| + 1 + |s.connection.history[1..]| == |s.received| + |s.connection.history|;
  }

  lemma LiveKeeps(s: State)
    requires Inv(s) && Enabled(s, Live)
    ensures Inv(Next(s, Live))
  {
    var c := s.connection;
    var mark: nat :| Marks(s.log, c.watermark, mark)
      && (if c.queue <= mark then |s.received| + |c.history| == mark
          else c.history == [] && |s.received| + |c.history| == c.queue);
    if c.queue < mark {
      assert c.queue < mark - 1 ==> Less(s.log[c.queue], s.log[mark - 1]);
    } else {
      assert mark > 0 ==> Less(s.log[mark - 1], s.log[c.queue]);
      assert s.received + [s.log[c.queue]] == s.log[..c.queue + 1];
    }
    assert Marks(s.log, c.watermark, mark);
  }

  /** Emission in the order of the keys. */
  predicate InOrder(s: State, step: Step) {
    step.Emit? && s.log != [] ==> Less(s.log[|s.log| - 1], step.event)
  }

  lemma StepKeeps(s: State, step: Step)
    requires Inv(s) && Enabled(s, step) && InOrder(s, step)
    ensures Inv(Next(s, step))
    ensures s.received <= Next(s, step).received
  {
    match step
    case Emit(event) => EmitKeeps(s, event);
    case Subscribe =>
    case Snapshot => SnapshotKeeps(s);
    case Replay => ReplayKeeps(s);
    case Live => LiveKeeps(s);
    case Break =>
  }

  ghost predicate IsRun(s: State, steps: seq<Step>)
    decreases |steps|
  {
    steps == [] || (Enabled(s, steps[0]) && IsRun(Next(s, steps[0]), steps[1..]))
  }

  ghost function End(s: State, steps: seq<Step>): State
    requires IsRun(s, steps)
    decreases |steps|
  {
    if steps == [] then s else End(Next(s, steps[0]), steps[1..])
  }

  /** Every emission of the run is in the order of the keys. */
  ghost predicate AllInOrder(s: State, steps: seq<Step>)
    requires IsRun(s, steps)
    decreases |steps|
  {
    steps == [] || (InOrder(s, steps[0]) && AllInOrder(Next(s, steps[0]), steps[1..]))
  }

  /**
   * Exactly once and in order: whatever reconnects, lags and overlaps of replay and live
   * delivery there are, the browser has a beginning of the log, and an idle stream has all of it.
   */
  lemma {:induction false} DeliveredOnceInOrder(s: State, steps: seq<Step>)
    requires Inv(s) && IsRun(s, steps) && AllInOrder(s, steps)
    ensures
      var end := End(s, steps);
      && s.received <= end.received <= end.log
      && (end.connection.Streaming? && end.connection.history == [] && end.connection.queue == |end.log| ==>
           end.received == end.log)
    decreases |steps|
  {
    hide Sorted, Enabled, Next;
    if steps == [] {
    } else {
      StepKeeps(s, steps[0]);
      DeliveredOnceInOrder(Next(s, steps[0]), steps[1..]);
    }
  }

  // What happens without that order

  lemma {:induction false} InsertHolds(event: Event, sorted: seq<Event>)
    ensures multiset(Insert(event, sorted)) == multiset(sorted) + multiset{event}
  {
    if sorted != [] && Less(event, sorted[|sorted| - 1]) {
      var n := |sorted| - 1;
      InsertHolds(event, sorted[..n]);
      assert sorted == sorted[..n] + [sorted[n]];
    }
  }

  /**
   * A request with a cursor lists exactly the events with a greater key, each as often as the log
   * has it, in whatever order they were emitted.
   */
  lemma {:induction false} ListedIff(log: seq<Event>, cursor: Option<Event>, event: Event)
    ensures multiset(Listed(log, cursor))[event] == if AfterMark(event, cursor) then multiset(log)[event] else 0
    ensures event in Listed(log, cursor)
       <==> && event in log
            && (cursor.Some? ==>
                  || cursor.value.ingestedAt < event.ingestedAt
                  || (cursor.value.ingestedAt == event.ingestedAt && cursor.value.id < event.id))
  {
    if log != [] {
      var n := |log| - 1;
      ListedIff(log[..n], cursor, event);
      assert log == log[..n] + [log[n]];
      if AfterMark(log[n], cursor) {
        InsertHolds(log[n], Listed(log[..n], cursor));
      }
    }
    assert event in Listed(log, cursor) <==> multiset(Listed(log, cursor))[event] > 0;
    assert event in log <==> multiset(log)[event] > 0;
  }

  lemma {:induction false} InsertSorts(event: Event, sorted: seq<Event>)
    requires Sorted(sorted) && event !in sorted
    ensures Sorted(Insert(event, sorted))
  {
    if sorted != [] && Less(event, sorted[|sorted| - 1]) {
      var n := |sorted| - 1;
      InsertSorts(event, sorted[..n]);
      InsertHolds(event, sorted[..n]);
      var before := Insert(event, sorted[..n]);
      forall i | 0 <= i < |before|
        ensures Less(before[i], sorted[n])
      {
        assert before[i] in multiset(before);
        assert before[i] == event || before[i] in sorted[..n];
      }
    } else {
      forall i | 0 <= i < |sorted|
        ensures Less(sorted[i], event)
      {
        assert i < |sorted| - 1 ==> Less(sorted[i], sorted[|sorted| - 1]);
      }
    }
  }

  lemma {:induction false} ListedIsSorted(log: seq<Event>, cursor: Option<Event>)
    requires Distinct(log)
    ensures Sorted(Listed(log, cursor))
  {
    if log != [] {
      var n := |log| - 1;
      ListedIsSorted(log[..n], cursor);
      ListedIff(log[..n], cursor, log[n]);
      if AfterMark(log[n], cursor) {
        InsertSorts(log[n], Listed(log[..n], cursor));
      }
    }
  }

  /** All of `events` lie behind the mark. */
  ghost predicate AllAfter(events: seq<Event>, mark: Option<Event>) {
    forall i | 0 <= i < |events| :: AfterMark(events[i], mark)
  }

  /** The mark is at the last event received, or before it. */
  predicate Passed(mark: Option<Event>, last: Option<Event>) {
    mark.None? || (last.Some? && !Less(last.value, mark.value))
  }

  /** An event of the log that was there before the subscription, or has been taken from its queue. */
  ghost predicate Accounted(event: Event, history: seq<Event>, watermark: Option<Event>, received: seq<Event>) {
    event in received || event in history || !AfterMark(event, watermark)
  }

  /** What holds in every reachable state, in whatever order the events are emitted. */
  ghost predicate AnyOrderInv(s: State) {
    && Distinct(s.log)
    && match s.connection
       case Closed => true
       case Subscribed(queue) => queue <= |s.log|
       case Streaming(history, queue, watermark) =>
         && queue <= |s.log|
         && Sorted(history) && AllAfter(history, LastOf(s.received))
         && (if history == [] then Passed(watermark, LastOf(s.received)) else watermark == LastOf(history))
         && forall i | 0 <= i < queue :: Accounted(s.log[i], history, watermark, s.received)
  }

  ghost predicate InQueue(s: State, event: Event)
    requires s.connection.Streaming?
  {
    exists i | s.connection.queue <= i < |s.log| :: s.log[i] == event
  }

  /** `event` can still reach the browser: from the replay, from the queue, or after a reconnect. */
  ghost predicate Deliverable(s: State, event: Event) {
    || AfterMark(event, LastOf(s.received))
    || (s.connection.Streaming? &&
        (event in s.connection.history || (InQueue(s, event) && AfterMark(event, s.connection.watermark))))
  }

  lemma WatermarkIsHigh(history: seq<Event>, cursor: Option<Event>)
    requires AllAfter(history, cursor)
    ensures
      var watermark := if history != [] then LastOf(history) else cursor;
      && (forall event: Event | !AfterMark(event, cursor) :: !AfterMark(event, watermark))
      && (history == [] ==> Passed(watermark, cursor))
  {
  }

  lemma AnySnapshotKeeps(s: State)
    requires AnyOrderInv(s) && Enabled(s, Snapshot)
    ensures AnyOrderInv(Next(s, Snapshot))
  {
    hide Listed, Less;
    var cursor := LastOf(s.received);
    var history := Listed(s.log, cursor);
    ListedIsSorted(s.log, cursor);
    forall event: Event
      ensures event in history <==> event in s.log && AfterMark(event, cursor)
    {
      ListedIff(s.log, cursor, event);
    }
    assert AllAfter(history, cursor) by {
      forall i | 0 <= i < |history| ensures AfterMark(history[i], cursor) { assert history[i] in history; }
    }
    WatermarkIsHigh(history, cursor);
  }

  lemma AnyReplayKeeps(s: State)
    requires AnyOrderInv(s) && Enabled(s, Replay)
    ensures AnyOrderInv(Next(s, Replay))
  {
    var history := s.connection.history;
    var received := s.received + [history[0]];
    assert history == [history[0]] + history[1..];
    forall i | 0 <= i < s.connection.queue
      ensures Accounted(s.log[i], history[1..], s.connection.watermark, received)
    {
      assert Accounted(s.log[i], history, s.connection.watermark, s.received);
    }
    forall i | 0 <= i < |history[1..]|
      ensures AfterMark(history[1..][i], LastOf(received))
    {
      assert Less(history[0], history[i + 1]);
    }
    assert Sorted(history[1..]);
  }

  lemma AnyLiveKeeps(s: State)
    requires AnyOrderInv(s) && Enabled(s, Live)
    ensures AnyOrderInv(Next(s, Live))
  {
    var c := s.connection;
    var next := Next(s, Live);
    forall i | 0 <= i < next.connection.queue
      ensures Accounted(s.log[i], [], c.watermark, next.received)
    {
      assert i < c.queue ==> Accounted(s.log[i], c.history, c.watermark, s.received);
    }
  }

  lemma AnyStepKeeps(s: State, step: Step)
    requires AnyOrderInv(s) && Enabled(s, step)
    ensures AnyOrderInv(Next(s, step))
    ensures s.received <= Next(s, step).received
    ensures forall event: Event | event in s.log :: event in Next(s, step).log
  {
    match step
    case Emit(event) => hide Less, Sorted, AfterMark, Passed;
    case Subscribe =>
    case Snapshot => AnySnapshotKeeps(s);
    case Replay => AnyReplayKeeps(s);
    case Live => AnyLiveKeeps(s);
    case Break =>
  }

  lemma LostAtSnapshot(s: State, event: Event)
    requires AnyOrderInv(s) && Enabled(s, Snapshot) && !Deliverable(s, event)
    ensures !Deliverable(Next(s, Snapshot), event)
  {
    hide Listed, Less;
    var cursor := LastOf(s.received);
    var history := Listed(s.log, cursor);
    ListedIff(s.log, cursor, event);
    assert AllAfter(history, cursor) by {
      forall i | 0 <= i < |history|
        ensures AfterMark(history[i], cursor)
      {
        ListedIff(s.log, cursor, history[i]);
        assert history[i] in history;
      }
    }
    WatermarkIsHigh(history, cursor);
  }

  lemma LostInReplay(s: State, event: Event)
    requires AnyOrderInv(s) && Enabled(s, Replay) && event !in s.received && !Deliverable(s, event)
    ensures event !in Next(s, Replay).received && !Deliverable(Next(s, Replay), event)
  {
    var history := s.connection.history;
    assert history[0] in history;
    assert AfterMark(history[0], LastOf(s.received));
    assert forall e: Event | e in history[1..] :: e in history;
  }

  lemma LostLive(s: State, event: Event)
    requires AnyOrderInv(s) && Enabled(s, Live) && event in s.log
    requires event !in s.received && !Deliverable(s, event)
    ensures event !in Next(s, Live).received && !Deliverable(Next(s, Live), event)
  {
    var c := s.connection;
    var i :| 0 <= i < |s.log| && s.log[i] == event;
    assert i < c.queue ==> Accounted(s.log[i], c.history, c.watermark, s.received);
    assert !AfterMark(event, c.watermark);
    assert s.log[c.queue] == event ==> InQueue(s, event);
  }

  /** What can no longer reach the browser does not reach it in any step, and never can again. */
  lemma LostStaysLost(s: State, step: Step, event: Event)
    requires AnyOrderInv(s) && Enabled(s, step)
    requires event in s.log && event !in s.received && !Deliverable(s, event)
    ensures event !in Next(s, step).received && !Deliverable(Next(s, step), event)
  {
    match step
    case Emit(_) => hide Less, Sorted;
    case Subscribe =>
    case Snapshot => LostAtSnapshot(s, event);
    case Replay => LostInReplay(s, event);
    case Live => LostLive(s, event);
    case Break =>
  }

  lemma {:induction false} NeverDelivered(s: State, steps: seq<Step>, event: Event)
    requires AnyOrderInv(s) && IsRun(s, steps)
    requires event in s.log && event !in s.received && !Deliverable(s, event)
    ensures event !in End(s, steps).received
    decreases |steps|
  {
    hide AnyOrderInv, Deliverable, Enabled, Next;
    if steps == [] {
    } else {
      AnyStepKeeps(s, steps[0]);
      LostStaysLost(s, steps[0], event);
      NeverDelivered(Next(s, steps[0]), steps[1..], event);
    }
  }

  // The way on for an event that can still be delivered

  function Times(step: Step, n: nat): (steps: seq<Step>)
    ensures |steps| == n
  {
    seq(n, _ => step)
  }

  lemma RunOn(s: State, step: Step, steps: seq<Step>)
    requires Enabled(s, step) && IsRun(Next(s, step), steps)
    ensures IsRun(s, [step] + steps) && End(s, [step] + steps) == End(Next(s, step), steps)
  {
    hide Enabled, Next;
    assert ([step] + steps)[1..] == steps;
  }

  /** The replay hands over the rest of the history. */
  lemma {:induction false} ReplayAll(s: State)
    requires s.connection.Streaming?
    ensures
      var steps := Times(Replay, |s.connection.history|);
      IsRun(s, steps) && End(s, steps) == s.(received := s.received + s.connection.history,
                                             connection := s.connection.(history := []))
    decreases |s.connection.history|
  {
    var history := s.connection.history;
    if history == [] {
      assert s.received + history == s.received;
    } else {
      var next := Next(s, Replay);
      ReplayAll(next);
      RunOn(s, Replay, Times(Replay, |history| - 1));
      assert Times(Replay, |history|) == [Replay] + Times(Replay, |history| - 1);
      assert next.received + history[1..] == s.received + history;
    }
  }

  /** Behind the replay the queue is handed over as far as the watermark lets it. */
  lemma {:induction false} LiveUntil(s: State, i: nat)
    requires s.connection.Streaming? && s.connection.history == []
    requires s.connection.queue <= i < |s.log| && AfterMark(s.log[i], s.connection.watermark)
    ensures
      var steps := Times(Live, i + 1 - s.connection.queue);
      IsRun(s, steps) && s.log[i] in End(s, steps).received
    decreases i - s.connection.queue
  {
    var queue := s.connection.queue;
    var next := Next(s, Live);
    if queue == i {
      RunOn(s, Live, []);
    } else {
      LiveUntil(next, i);
      RunOn(s, Live, Times(Live, i - queue));
    }
    assert Times(Live, i + 1 - queue) == [Live] + Times(Live, i - queue);
    assert Times(Live, 0) == [];
  }

  /** A reconnect: what is listed behind the last event received is handed over. */
  function Reconnect(s: State): seq<Step> {
    [Break, Subscribe, Snapshot] + Times(Replay, |Listed(s.log, LastOf(s.received))|)
  }

  lemma ReconnectRuns(s: State)
    ensures IsRun(s, Reconnect(s))
    ensures End(s, Reconnect(s)).log == s.log
    ensures End(s, Reconnect(s)).received == s.received + Listed(s.log, LastOf(s.received))
  {
    hide Listed, Times;
    var closed := Next(s, Break);
    var subscribed := Next(closed, Subscribe);
    var streaming := Next(subscribed, Snapshot);
    var replay := Times(Replay, |Listed(s.log, LastOf(s.received))|);
    ReplayAll(streaming);
    RunOn(subscribed, Snapshot, replay);
    RunOn(closed, Subscribe, [Snapshot] + replay);
    RunOn(s, Break, [Subscribe] + ([Snapshot] + replay));
    assert Reconnect(s) == [Break] + ([Subscribe] + ([Snapshot] + replay));
  }

  /**
   * A reconnect delivers exactly what has a greater key than the event received last: an event
   * that has not been received and is not greater is left out, one that has been received and is
   * greater comes again.
   */
  lemma ReconnectDelivers(s: State, event: Event)
    ensures IsRun(s, Reconnect(s))
    ensures multiset(End(s, Reconnect(s)).received)[event]
         == multiset(s.received)[event]
          + if AfterMark(event, LastOf(s.received)) then multiset(s.log)[event] else 0
  {
    hide Listed, Reconnect;
    ReconnectRuns(s);
    ListedIff(s.log, LastOf(s.received), event);
  }

  /** The events of the log up to a mark, in the order of insertion. */
  function UpTo(log: seq<Event>, mark: Option<Event>): seq<Event> {
    if log == [] then []
    else
      var n := |log| - 1;
      UpTo(log[..n], mark) + if AfterMark(log[n], mark) then [] else [log[n]]
  }

  lemma {:induction false} UpToAndListed(log: seq<Event>, mark: Option<Event>)
    ensures multiset(UpTo(log, mark)) + multiset(Listed(log, mark)) == multiset(log)
  {
    if log != [] {
      var n := |log| - 1;
      UpToAndListed(log[..n], mark);
      assert log == log[..n] + [log[n]];
      if AfterMark(log[n], mark) {
        InsertHolds(log[n], Listed(log[..n], mark));
      }
    }
  }

  /**
   * After a reconnect the browser has every event of the log exactly once if and only if it had
   * exactly the events up to the last one it received.
   */
  lemma ReconnectIsCompleteIff(s: State)
    ensures IsRun(s, Reconnect(s))
    ensures multiset(End(s, Reconnect(s)).received) == multiset(s.log)
       <==> multiset(s.received) == multiset(UpTo(s.log, LastOf(s.received)))
  {
    hide Listed, Reconnect, UpTo;
    ReconnectRuns(s);
    UpToAndListed(s.log, LastOf(s.received));
    var listed := multiset(Listed(s.log, LastOf(s.received)));
    assert multiset(End(s, Reconnect(s)).received) == multiset(s.received) + listed;
    var seen, upTo := multiset(s.received), multiset(UpTo(s.log, LastOf(s.received)));
    if seen + listed == upTo + listed {
      assert seen == seen + listed - listed == upTo + listed - listed == upTo;
    }
  }

  lemma {:induction false} RunsJoin(s: State, first: seq<Step>, second: seq<Step>)
    requires IsRun(s, first) && IsRun(End(s, first), second)
    ensures IsRun(s, first + second) && End(s, first + second) == End(End(s, first), second)
    decreases |first|
  {
    hide Enabled, Next;
    if first == [] {
      assert first + second == second;
    } else {
      RunsJoin(Next(s, first[0]), first[1..], second);
      assert first + second == [first[0]] + (first[1..] + second);
      RunOn(s, first[0], first[1..] + second);
    }
  }

  /** Some later run delivers `event`. */
  ghost predicate ComesLater(s: State, event: Event) {
    exists steps: seq<Step> :: IsRun(s, steps) && event in End(s, steps).received
  }

  lemma ComesByReplay(s: State, event: Event)
    requires s.connection.Streaming? && event in s.connection.history
    ensures ComesLater(s, event)
  {
    hide Times;
    ReplayAll(s);
    var steps := Times(Replay, |s.connection.history|);
    assert IsRun(s, steps) && event in End(s, steps).received;
  }

  lemma ComesLive(s: State, event: Event)
    requires s.connection.Streaming? && InQueue(s, event) && AfterMark(event, s.connection.watermark)
    ensures ComesLater(s, event)
  {
    hide Times, Less;
    var i :| s.connection.queue <= i < |s.log| && s.log[i] == event;
    var replay, live := Times(Replay, |s.connection.history|), Times(Live, i + 1 - s.connection.queue);
    ReplayAll(s);
    LiveUntil(End(s, replay), i);
    RunsJoin(s, replay, live);
    assert IsRun(s, replay + live) && event in End(s, replay + live).received;
  }

  lemma ComesByReconnect(s: State, event: Event)
    requires event in s.log && AfterMark(event, LastOf(s.received))
    ensures ComesLater(s, event)
  {
    hide Reconnect, Less;
    ReconnectDelivers(s, event);
    assert multiset(s.log)[event] > 0;
    assert multiset(End(s, Reconnect(s)).received)[event] > 0;
    assert IsRun(s, Reconnect(s)) && event in End(s, Reconnect(s)).received;
  }

  /**
   * Exactly what is lost, in every reachable state and whatever the order of emission is: an event
   * of the log that has not been received can still come in some later run if and only if it is
   * still to be replayed, or waits in the queue behind the watermark, or has a greater key than the
   * event received last.
   */
  lemma DeliverableIff(s: State, event: Event)
    requires AnyOrderInv(s) && event in s.log && event !in s.received
    ensures ComesLater(s, event) <==> Deliverable(s, event)
  {
    hide AnyOrderInv, AfterMark, InQueue;
    if Deliverable(s, event) {
      if AfterMark(event, LastOf(s.received)) {
        ComesByReconnect(s, event);
      } else if event in s.connection.history {
        ComesByReplay(s, event);
      } else {
        ComesLive(s, event);
      }
    } else {
      forall steps: seq<Step> | IsRun(s, steps)
        ensures event !in End(s, steps).received
      {
        NeverDelivered(s, steps, event);
      }
    }
  }

  lemma {:induction false} EveryRunKeeps(s: State, steps: seq<Step>)
    requires AnyOrderInv(s) && IsRun(s, steps)
    ensures AnyOrderInv(End(s, steps))
    decreases |steps|
  {
    hide AnyOrderInv, Enabled, Next;
    if steps == [] {
    } else {
      AnyStepKeeps(s, steps[0]);
      EveryRunKeeps(Next(s, steps[0]), steps[1..]);
    }
  }

  /** An event with the key 20 is seen live; one with the key 15 is emitted while the browser is away. */
  function LateEmission(): seq<Step> {
    [Subscribe, Snapshot, Emit(Event(20, 0)), Live, Break, Emit(Event(15, 0))]
  }

  lemma LateRun()
    ensures IsRun(Initial(), LateEmission())
    ensures End(Initial(), LateEmission()) == State([Event(20, 0), Event(15, 0)], Closed, [Event(20, 0)])
  {
    var a, b := Event(20, 0), Event(15, 0);
    var s1 := Next(Initial(), Subscribe);
    var s2 := Next(s1, Snapshot);
    assert Listed([], None) == [];
    var s3 := Next(s2, Emit(a));
    var s4 := Next(s3, Live);
    var s5 := Next(s4, Break);
    var s6 := Next(s5, Emit(b));
    assert s6 == State([a, b], Closed, [a]);
    hide Next, Enabled;
    RunOn(s5, Emit(b), []);
    RunOn(s4, Break, [Emit(b)]);
    RunOn(s3, Live, [Break, Emit(b)]);
    RunOn(s2, Emit(a), [Live, Break, Emit(b)]);
    RunOn(s1, Snapshot, [Emit(a), Live, Break, Emit(b)]);
    RunOn(Initial(), Subscribe, [Snapshot, Emit(a), Live, Break, Emit(b)]);
  }

  /** It is lost: no later run delivers it. */
  lemma LateEventIsLost()
    ensures IsRun(Initial(), LateEmission())
    ensures
      var s := End(Initial(), LateEmission());
      Event(15, 0) in s.log && !ComesLater(s, Event(15, 0))
  {
    LateRun();
    EveryRunKeeps(Initial(), LateEmission());
    var s := End(Initial(), LateEmission());
    hide End, IsRun, LateEmission;
    assert s.log[1] == Event(15, 0);
    DeliverableIff(s, Event(15, 0));
  }

  /** Keys 20 and 15 are seen live, in this order; 17 is emitted while the browser is away. */
  function MixedEmission(): seq<Step> {
    [Subscribe, Snapshot, Emit(Event(20, 0)), Live, Emit(Event(15, 0)), Live, Break, Emit(Event(17, 0))]
  }

  lemma MixedListed()
    ensures Listed([Event(20, 0), Event(15, 0), Event(17, 0)], Some(Event(15, 0))) == [Event(17, 0), Event(20, 0)]
  {
    var a, b, c := Event(20, 0), Event(15, 0), Event(17, 0);
    assert [a, b, c][..2] == [a, b] && [a, b][..1] == [a] && [a][..0] == [];
    assert Listed([a], Some(b)) == [a];
    assert Listed([a, b], Some(b)) == [a];
    assert Insert(c, [a]) == Insert(c, []) + [a];
  }

  lemma MixedRun()
    ensures IsRun(Initial(), MixedEmission())
    ensures
      var s := End(Initial(), MixedEmission());
      && s.log == [Event(20, 0), Event(15, 0), Event(17, 0)]
      && s.received == [Event(20, 0), Event(15, 0)]
  {
    var a, b, c := Event(20, 0), Event(15, 0), Event(17, 0);
    var s1 := Next(Initial(), Subscribe);
    var s2 := Next(s1, Snapshot);
    assert Listed([], None) == [];
    var s3 := Next(s2, Emit(a));
    var s4 := Next(s3, Live);
    var s5 := Next(s4, Emit(b));
    var s6 := Next(s5, Live);
    var s7 := Next(s6, Break);
    var s8 := Next(s7, Emit(c));
    assert s8 == State([a, b, c], Closed, [a, b]);
    hide Next, Enabled;
    RunOn(s7, Emit(c), []);
    RunOn(s6, Break, [Emit(c)]);
    RunOn(s5, Live, [Break, Emit(c)]);
    RunOn(s4, Emit(b), [Live, Break, Emit(c)]);
    RunOn(s3, Live, [Emit(b), Live, Break, Emit(c)]);
    RunOn(s2, Emit(a), [Live, Emit(b), Live, Break, Emit(c)]);
    RunOn(s1, Snapshot, [Emit(a), Live, Emit(b), Live, Break, Emit(c)]);
    RunOn(Initial(), Subscribe, [Snapshot, Emit(a), Live, Emit(b), Live, Break, Emit(c)]);
  }

  /** After the reconnect 17 has come, and 20 has come twice. */
  lemma SeenEventComesAgain()
    ensures IsRun(Initial(), MixedEmission())
    ensures
      var s := End(Initial(), MixedEmission());
      && IsRun(s, Reconnect(s))
      && End(s, Reconnect(s)).received == [Event(20, 0), Event(15, 0), Event(17, 0), Event(20, 0)]
  {
    MixedRun();
    var s := End(Initial(), MixedEmission());
    MixedListed();
    hide End, IsRun, MixedEmission, Reconnect, Listed;
    ReconnectRuns(s);
  }
}
