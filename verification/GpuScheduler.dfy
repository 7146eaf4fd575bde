/**
 * GPU admission (workers/gpu_agent/main.py, `GpuScheduler`, with ASR on the GPU).
 *
 * The state machine has one step for every stretch of a coroutine between two suspensions: it
 * arrives, wakes up and looks again, runs out of its first short wait, or finishes and notifies
 * everybody. A woken coroutine may find that others went first. No waiter is cancelled.
 */
module Scheduling {

  const MAX_ASR_BURST_BEFORE_TRANSLATION: nat := 8

  datatype Kind = Asr | Translation | Explanation | Exclusive

  /** `_active_kind`: what holds the device, besides ASR runs that overlap a language model. */
  datatype Active = Idle | AsrActive | LlmActive | ExclusiveActive

  /** A coroutine inside the scheduler. `Timed` is the wait of at most 50 ms before the first ASR. */
  datatype Task =
    | Sleeping(kind: Kind)
    | Timed(kind: Kind)
    | Notified(kind: Kind)
    | Running(kind: Kind, overlapped: bool)

  datatype State = State(
    active: Active,
    activeAsr: int,
    asrWaiters: int,
    translationWaiters: int,
    asrCompleted: bool,
    asrSinceTranslation: nat,
    tasks: map<nat, Task>)

  datatype Event =
    | Arrive(id: nat, kind: Kind)
    | Wake(id: nat)
    | Timeout(id: nat)
    | Finish(id: nat)

  function ActiveFor(kind: Kind): Active {
    match kind
    case Asr => AsrActive
    case Translation => LlmActive
    case Explanation => LlmActive
    case Exclusive => ExclusiveActive
  }

  /** The condition under which a waiter stops waiting. */
  predicate Admits(s: State, kind: Kind) {
    && s.active == Idle
    && match kind
       case Asr =>
         s.translationWaiters == 0 || s.asrSinceTranslation < MAX_ASR_BURST_BEFORE_TRANSLATION
       case Translation =>
         s.asrWaiters == 0 || s.asrSinceTranslation >= MAX_ASR_BURST_BEFORE_TRANSLATION
       case Explanation => s.asrWaiters == 0 && s.translationWaiters == 0
       case Exclusive => s.activeAsr == 0 && s.asrWaiters == 0 && s.translationWaiters == 0
  }

  /** The device is given to the coroutine. */
  function Started(s: State, id: nat, kind: Kind): State {
    s.(active := ActiveFor(kind),
       activeAsr := if kind == Asr then s.activeAsr + 1 else s.activeAsr,
       asrSinceTranslation := if kind == Translation then 0 else s.asrSinceTranslation,
       tasks := s.tasks[id := Running(kind, false)])
  }

  /** One more waiter of this kind, or one less. */
  function Counted(s: State, kind: Kind): State {
    s.(asrWaiters := if kind == Asr then s.asrWaiters + 1 else s.asrWaiters,
       translationWaiters := if kind == Translation then s.translationWaiters + 1 else s.translationWaiters)
  }

  function Uncounted(s: State, kind: Kind): State
  {
    s.(asrWaiters := if kind == Asr then s.asrWaiters - 1 else s.asrWaiters,
       translationWaiters := if kind == Translation then s.translationWaiters - 1 else s.translationWaiters)
  }

  /** A counted waiter looks at its condition. */
  function Look(s: State, id: nat, kind: Kind): State
  {
    if Admits(s, kind) then Started(Uncounted(s, kind), id, kind)
    else s.(tasks := s.tasks[id := Sleeping(kind)])
  }

  function Awake(task: Task): Task {
    match task
    case Sleeping(kind) => Notified(kind)
    case Timed(kind) => Notified(kind)
    case _ => task
  }

  /** `notify_all`. */
  function NotifyAll(tasks: map<nat, Task>): map<nat, Task> {
    map id | id in tasks :: Awake(tasks[id])
  }

  predicate Waits(task: Task) {
    !task.Running?
  }

  predicate Possible(s: State, event: Event) {
    match event
    case Arrive(id, _) => id !in s.tasks
    case Wake(id) => id in s.tasks && s.tasks[id].Notified?
    case Timeout(id) => id in s.tasks && s.tasks[id].Timed?
    case Finish(id) => id in s.tasks && s.tasks[id].Running?
  }

  function Next(overlap: bool, s: State, event: Event): State
    requires Possible(s, event)
  {
    match event
    case Arrive(id, kind) =>
      if kind == Asr && s.active == LlmActive && overlap then
        s.(activeAsr := s.activeAsr + 1, tasks := s.tasks[id := Running(Asr, true)])
      else if (kind == Translation || kind == Explanation) && !s.asrCompleted then
        Counted(s, kind).(tasks := s.tasks[id := Timed(kind)])
      else Look(Counted(s, kind), id, kind)
    case Wake(id) => Look(s, id, s.tasks[id].kind)
    case Timeout(id) => Look(s, id, s.tasks[id].kind)
    case Finish(id) =>
      var task := s.tasks[id];
      var tasks := NotifyAll(s.tasks - {id});
      if task.kind == Asr then
        s.(active := if task.overlapped then s.active else Idle,
           activeAsr := s.activeAsr - 1,
           asrSinceTranslation := if task.overlapped then s.asrSinceTranslation else s.asrSinceTranslation + 1,
           asrCompleted := true,
           tasks := tasks)
      else s.(active := Idle, tasks := tasks)
  }

  // Which tasks are where

  function Ids(tasks: map<nat, Task>, p: Task -> bool): set<nat> {
    set id | id in tasks && p(tasks[id])
  }

  function WaitingFor(kind: Kind): Task -> bool {
    (task: Task) => !task.Running? && task.kind == kind
  }

  function RunningAsr(): Task -> bool {
    (task: Task) => task.Running? && task.kind == Asr
  }

  /** Holds the device by itself. */
  function Holding(): Task -> bool {
    (task: Task) => task.Running? && !task.overlapped
  }

  /** The counters count, and the device is held by exactly what `active` says. */
  ghost predicate CountersFit(s: State) {
    && s.asrWaiters == |Ids(s.tasks, WaitingFor(Asr))|
    && s.translationWaiters == |Ids(s.tasks, WaitingFor(Translation))|
    && s.activeAsr == |Ids(s.tasks, RunningAsr())|
    && |Ids(s.tasks, Holding())| == if s.active == Idle then 0 else 1
  }

  ghost predicate TasksFit(overlap: bool, s: State) {
    && (forall id | id in s.tasks && s.tasks[id].Running? ::
          if s.tasks[id].overlapped then overlap && s.tasks[id].kind == Asr
          else s.active == ActiveFor(s.tasks[id].kind))
    && (s.active == ExclusiveActive ==> s.activeAsr == 0)
  }

  /** No waiter sleeps although it could start. */
  ghost predicate NoneOversleeps(s: State) {
    forall id | id in s.tasks && s.tasks[id].Sleeping? :: !Admits(s, s.tasks[id].kind)
  }

  ghost predicate Inv(overlap: bool, s: State) {
    CountersFit(s) && TasksFit(overlap, s) && NoneOversleeps(s)
  }

  // Counting

  lemma IdsOfUpdate(tasks: map<nat, Task>, id: nat, task: Task, p: Task -> bool)
    ensures Ids(tasks[id := task], p) == if p(task) then Ids(tasks, p) + {id} else Ids(tasks, p) - {id}
  {
  }

  lemma CountUpdate(tasks: map<nat, Task>, id: nat, task: Task, p: Task -> bool)
    ensures |Ids(tasks[id := task], p)|
         == |Ids(tasks, p)| + (if p(task) then 1 else 0) - (if id in tasks && p(tasks[id]) then 1 else 0)
  {
    IdsOfUpdate(tasks, id, task, p);
  }

  lemma CountRemove(tasks: map<nat, Task>, id: nat, p: Task -> bool)
    requires id in tasks
    ensures |Ids(tasks - {id}, p)| == |Ids(tasks, p)| - (if p(tasks[id]) then 1 else 0)
  {
    assert Ids(tasks - {id}, p) == Ids(tasks, p) - {id};
  }

  lemma CountNotified(tasks: map<nat, Task>, p: Task -> bool)
    requires forall task: Task :: p(Awake(task)) == p(task)
    ensures |Ids(NotifyAll(tasks), p)| == |Ids(tasks, p)|
  {
    assert Ids(NotifyAll(tasks), p) == Ids(tasks, p);
  }

  /** A task in the table is in its count. */
  lemma CountPositive(tasks: map<nat, Task>, id: nat, p: Task -> bool)
    requires id in tasks && p(tasks[id])
    ensures |Ids(tasks, p)| > 0
  {
    assert id in Ids(tasks, p);
  }

  // The invariant is kept by every step

  /** A waiter that has been counted but has not looked yet. */
  lemma JoinKeeps(overlap: bool, s: State, id: nat, task: Task)
    requires Inv(overlap, s) && id !in s.tasks && (task.Timed? || task.Notified?)
    ensures Inv(overlap, Counted(s, task.kind).(tasks := s.tasks[id := task]))
  {
    CountUpdate(s.tasks, id, task, WaitingFor(Asr));
    CountUpdate(s.tasks, id, task, WaitingFor(Translation));
    CountUpdate(s.tasks, id, task, RunningAsr());
    CountUpdate(s.tasks, id, task, Holding());
    hide Ids;
  }

  lemma LookCounts(overlap: bool, s: State, id: nat, kind: Kind)
    requires Inv(overlap, s) && id in s.tasks && Waits(s.tasks[id]) && s.tasks[id].kind == kind
    ensures CountersFit(Look(s, id, kind))
  {
    var task := Look(s, id, kind).tasks[id];
    CountUpdate(s.tasks, id, task, WaitingFor(Asr));
    CountUpdate(s.tasks, id, task, WaitingFor(Translation));
    CountUpdate(s.tasks, id, task, RunningAsr());
    CountUpdate(s.tasks, id, task, Holding());
    hide Ids, TasksFit, NoneOversleeps;
  }

  /** While the device is idle, what runs is ASR that began beside a language model. */
  lemma NothingHolds(s: State)
    requires CountersFit(s)
    ensures s.active == Idle ==> forall id | id in s.tasks && s.tasks[id].Running? :: s.tasks[id].overlapped
  {
    if s.active == Idle {
      forall id | id in s.tasks && s.tasks[id].Running?
        ensures s.tasks[id].overlapped
      {
        if !s.tasks[id].overlapped { CountPositive(s.tasks, id, Holding()); }
      }
    }
  }

  lemma LookTasks(overlap: bool, s: State, id: nat, kind: Kind)
    requires CountersFit(s) && TasksFit(overlap, s)
    requires id in s.tasks && Waits(s.tasks[id]) && s.tasks[id].kind == kind
    ensures TasksFit(overlap, Look(s, id, kind))
  {
    NothingHolds(s);
    hide CountersFit, Ids;
  }

  lemma LookWakes(s: State, id: nat, kind: Kind)
    requires NoneOversleeps(s)
    ensures NoneOversleeps(Look(s, id, kind))
  {
  }

  lemma LookKeeps(overlap: bool, s: State, id: nat, kind: Kind)
    requires Inv(overlap, s) && id in s.tasks && Waits(s.tasks[id]) && s.tasks[id].kind == kind
    ensures Inv(overlap, Look(s, id, kind))
  {
    LookCounts(overlap, s, id, kind);
    LookTasks(overlap, s, id, kind);
    LookWakes(s, id, kind);
    hide CountersFit, TasksFit, NoneOversleeps, Look;
  }

  lemma OverlapKeeps(overlap: bool, s: State, id: nat)
    requires Inv(overlap, s) && id !in s.tasks && s.active == LlmActive && overlap
    ensures Inv(overlap, s.(activeAsr := s.activeAsr + 1, tasks := s.tasks[id := Running(Asr, true)]))
  {
    var task := Running(Asr, true);
    CountUpdate(s.tasks, id, task, WaitingFor(Asr));
    CountUpdate(s.tasks, id, task, WaitingFor(Translation));
    CountUpdate(s.tasks, id, task, RunningAsr());
    CountUpdate(s.tasks, id, task, Holding());
    hide Ids;
  }

  lemma CountFinished(tasks: map<nat, Task>, id: nat, p: Task -> bool)
    requires id in tasks && forall task: Task :: p(Awake(task)) == p(task)
    ensures |Ids(NotifyAll(tasks - {id}), p)| == |Ids(tasks, p)| - (if p(tasks[id]) then 1 else 0)
  {
    CountRemove(tasks, id, p);
    CountNotified(tasks - {id}, p);
  }

  lemma FinishCounts(overlap: bool, s: State, id: nat)
    requires Inv(overlap, s) && Possible(s, Finish(id))
    ensures CountersFit(Next(overlap, s, Finish(id)))
  {
    CountFinished(s.tasks, id, WaitingFor(Asr));
    CountFinished(s.tasks, id, WaitingFor(Translation));
    CountFinished(s.tasks, id, RunningAsr());
    CountFinished(s.tasks, id, Holding());
    hide Ids, NotifyAll, NoneOversleeps;
  }

  lemma {:induction false} SubsetIsSmaller(a: set<nat>, b: set<nat>)
    requires a <= b
    ensures |a| <= |b|
    decreases a
  {
    if a != {} {
      var x :| x in a;
      SubsetIsSmaller(a - {x}, b - {x});
    }
  }

  /** One task at most holds the device. */
  lemma OthersDoNotHold(s: State, id: nat)
    requires CountersFit(s) && id in s.tasks && Holding()(s.tasks[id])
    ensures forall other | other in s.tasks && other != id :: !Holding()(s.tasks[other])
  {
    forall other | other in s.tasks && other != id
      ensures !Holding()(s.tasks[other])
    {
      if Holding()(s.tasks[other]) {
        assert {id, other} <= Ids(s.tasks, Holding());
        SubsetIsSmaller({id, other}, Ids(s.tasks, Holding()));
      }
    }
  }

  lemma FinishTasks(overlap: bool, s: State, id: nat)
    requires Inv(overlap, s) && Possible(s, Finish(id))
    ensures TasksFit(overlap, Next(overlap, s, Finish(id)))
  {
    if Holding()(s.tasks[id]) {
      OthersDoNotHold(s, id);
    }
    if s.tasks[id].kind == Asr {
      CountPositive(s.tasks, id, RunningAsr());
    }
    hide Ids, NoneOversleeps;
  }

  lemma FinishKeeps(overlap: bool, s: State, id: nat)
    requires Inv(overlap, s) && Possible(s, Finish(id))
    ensures Inv(overlap, Next(overlap, s, Finish(id)))
  {
    FinishCounts(overlap, s, id);
    FinishTasks(overlap, s, id);
    hide CountersFit, TasksFit, Admits;
  }

  /** What the looking task was before makes no difference. */
  lemma LookForgets(s: State, id: nat, kind: Kind)
    ensures Look(Counted(s, kind).(tasks := s.tasks[id := Notified(kind)]), id, kind)
         == Look(Counted(s, kind), id, kind)
  {
    var tasks := s.tasks[id := Notified(kind)];
    assert tasks[id := Running(kind, false)] == s.tasks[id := Running(kind, false)];
    assert tasks[id := Sleeping(kind)] == s.tasks[id := Sleeping(kind)];
  }

  lemma StepKeeps(overlap: bool, s: State, event: Event)
    requires Inv(overlap, s) && Possible(s, event)
    ensures Inv(overlap, Next(overlap, s, event))
  {
    hide Inv, Admits;
    match event
    case Arrive(id, kind) =>
      if kind == Asr && s.active == LlmActive && overlap {
        OverlapKeeps(overlap, s, id);
      } else if (kind == Translation || kind == Explanation) && !s.asrCompleted {
        JoinKeeps(overlap, s, id, Timed(kind));
      } else {
        var joined := Counted(s, kind).(tasks := s.tasks[id := Notified(kind)]);
        JoinKeeps(overlap, s, id, Notified(kind));
        LookKeeps(overlap, joined, id, kind);
        LookForgets(s, id, kind);
      }
    case Wake(id) => LookKeeps(overlap, s, id, s.tasks[id].kind);
    case Timeout(id) => LookKeeps(overlap, s, id, s.tasks[id].kind);
    case Finish(id) => FinishKeeps(overlap, s, id);
  }

  // Runs

  ghost predicate IsRun(overlap: bool, s: State, events: seq<Event>)
    decreases |events|
  {
    events == [] ||
    (Possible(s, events[0]) && IsRun(overlap, Next(overlap, s, events[0]), events[1..]))
  }

  ghost function End(overlap: bool, s: State, events: seq<Event>): State
    requires IsRun(overlap, s, events)
    decreases |events|
  {
    if events == [] then s else End(overlap, Next(overlap, s, events[0]), events[1..])
  }

  lemma {:induction false} RunKeeps(overlap: bool, s: State, events: seq<Event>)
    requires Inv(overlap, s) && IsRun(overlap, s, events)
    ensures Inv(overlap, End(overlap, s, events))
    decreases |events|
  {
    hide Inv, Next;
    if events != [] {
      StepKeeps(overlap, s, events[0]);
      RunKeeps(overlap, Next(overlap, s, events[0]), events[1..]);
    }
  }

  function Initial(): State {
    State(Idle, 0, 0, 0, false, 0, map[])
  }

  lemma InitialInv(overlap: bool)
    ensures Inv(overlap, Initial())
  {
    forall p | p in [WaitingFor(Asr), WaitingFor(Translation), RunningAsr(), Holding()]
      ensures Ids(map[], p) == {}
    {
    }
  }

  // Exclusion

  /** Two tasks that may run at the same time. */
  predicate MayOverlap(overlap: bool, a: Kind, b: Kind) {
    overlap && (a == Asr || b == Asr) && a != Exclusive && b != Exclusive
  }

  /**
   * In every reachable state an exclusive run overlaps nothing, at most one language model
   * runs, and without overlap at most one run of any kind exists.
   */
  lemma RunsExclude(overlap: bool, events: seq<Event>, a: nat, b: nat)
    requires IsRun(overlap, Initial(), events)
    requires a in End(overlap, Initial(), events).tasks && b in End(overlap, Initial(), events).tasks && a != b
    requires
      var tasks := End(overlap, Initial(), events).tasks;
      tasks[a].Running? && tasks[b].Running?
    ensures
      var tasks := End(overlap, Initial(), events).tasks;
      MayOverlap(overlap, tasks[a].kind, tasks[b].kind)
  {
    InitialInv(overlap);
    RunKeeps(overlap, Initial(), events);
    var s := End(overlap, Initial(), events);
    if !s.tasks[a].overlapped {
      OthersDoNotHold(s, a);
    } else if !s.tasks[b].overlapped {
      OthersDoNotHold(s, b);
    }
    if s.tasks[a].kind == Asr {
      CountPositive(s.tasks, a, RunningAsr());
    }
    if s.tasks[b].kind == Asr {
      CountPositive(s.tasks, b, RunningAsr());
    }
    hide Ids, NoneOversleeps;
  }

  // Progress

  /** A task that will look at its condition by itself. */
  predicate Stirs(task: Task) {
    task.Notified? || task.Timed?
  }

  lemma SomeWaiter(tasks: map<nat, Task>, kind: Kind) returns (id: nat)
    requires |Ids(tasks, WaitingFor(kind))| > 0
    ensures id in tasks && Waits(tasks[id]) && tasks[id].kind == kind
  {
    id :| id in Ids(tasks, WaitingFor(kind));
  }

  /** Whenever nothing runs and somebody waits, somebody who may start is not asleep. */
  lemma SomebodyCanStart(overlap: bool, events: seq<Event>, waiter: nat) returns (id: nat)
    requires IsRun(overlap, Initial(), events)
    requires
      var s := End(overlap, Initial(), events);
      && waiter in s.tasks && Waits(s.tasks[waiter])
      && forall other | other in s.tasks :: !s.tasks[other].Running?
    ensures
      var s := End(overlap, Initial(), events);
      id in s.tasks && Stirs(s.tasks[id]) && Admits(s, s.tasks[id].kind)
  {
    InitialInv(overlap);
    RunKeeps(overlap, Initial(), events);
    var s := End(overlap, Initial(), events);
    assert Ids(s.tasks, Holding()) == {} && Ids(s.tasks, RunningAsr()) == {};
    if s.translationWaiters > 0 && (s.asrWaiters == 0 || s.asrSinceTranslation >= MAX_ASR_BURST_BEFORE_TRANSLATION) {
      id := SomeWaiter(s.tasks, Translation);
    } else if s.asrWaiters > 0 {
      id := SomeWaiter(s.tasks, Asr);
    } else {
      id := waiter;
      if s.tasks[waiter].kind == Asr || s.tasks[waiter].kind == Translation {
        CountPositive(s.tasks, waiter, WaitingFor(s.tasks[waiter].kind));
      }
    }
    hide Ids, TasksFit;
  }

  // Bounded bypass

  /** The event lets a task of this kind take the device (an overlapping ASR does not). */
  predicate Takes(overlap: bool, s: State, event: Event, kind: Kind)
    requires Possible(s, event)
  {
    var next := Next(overlap, s, event);
    && !event.Finish?
    && event.id in next.tasks && next.tasks[event.id] == Running(kind, false)
  }

  /** How often tasks of this kind take the device. */
  ghost function Admissions(overlap: bool, s: State, events: seq<Event>, kind: Kind): nat
    requires IsRun(overlap, s, events)
    decreases |events|
  {
    if events == [] then 0
    else
      var first := if Takes(overlap, s, events[0], kind) then 1 else 0;
      first + Admissions(overlap, Next(overlap, s, events[0]), events[1..], kind)
  }

  /** Throughout the run, before each event, somebody of this kind waits. */
  ghost predicate WaitsThroughout(overlap: bool, s: State, events: seq<Event>, kind: Kind)
    requires IsRun(overlap, s, events)
    decreases |events|
  {
    events == [] ||
    (|Ids(s.tasks, WaitingFor(kind))| > 0 &&
     WaitsThroughout(overlap, Next(overlap, s, events[0]), events[1..], kind))
  }

  /** How many more ASR runs may take the device ahead of a waiting translation. */
  function AsrRoom(s: State): nat {
    var used := s.asrSinceTranslation + if s.active == AsrActive then 1 else 0;
    if used < MAX_ASR_BURST_BEFORE_TRANSLATION then MAX_ASR_BURST_BEFORE_TRANSLATION - used else 0
  }

  lemma AsrRoomStep(overlap: bool, s: State, event: Event)
    requires Inv(overlap, s) && Possible(s, event)
    requires s.translationWaiters > 0 && !Takes(overlap, s, event, Translation)
    ensures
      var next := Next(overlap, s, event);
      AsrRoom(next) + (if Takes(overlap, s, event, Asr) then 1 else 0) <= AsrRoom(s)
  {
    hide Ids, NoneOversleeps;
  }

  /** While a translation waits and none is let in, at most eight ASR runs take the device. */
  lemma {:induction false} AsrBurstIsBounded(overlap: bool, s: State, events: seq<Event>)
    requires Inv(overlap, s) && IsRun(overlap, s, events)
    requires WaitsThroughout(overlap, s, events, Translation) && Admissions(overlap, s, events, Translation) == 0
    ensures Admissions(overlap, s, events, Asr) <= AsrRoom(s) <= 8
    decreases |events|
  {
    if events != [] {
      StepKeeps(overlap, s, events[0]);
      AsrRoomStep(overlap, s, events[0]);
      AsrBurstIsBounded(overlap, Next(overlap, s, events[0]), events[1..]);
    }
  }

  /** Whether a translation may still go ahead of a waiting ASR. */
  function TranslationRoom(s: State): nat {
    var used := s.asrSinceTranslation + if s.active == AsrActive then 1 else 0;
    if used >= MAX_ASR_BURST_BEFORE_TRANSLATION then 1 else 0
  }

  lemma TranslationRoomStep(overlap: bool, s: State, event: Event)
    requires Inv(overlap, s) && Possible(s, event)
    requires s.asrWaiters > 0 && !Takes(overlap, s, event, Asr)
    ensures
      var next := Next(overlap, s, event);
      && TranslationRoom(next) + (if Takes(overlap, s, event, Translation) then 1 else 0) <= TranslationRoom(s)
      && !Takes(overlap, s, event, Explanation) && !Takes(overlap, s, event, Exclusive)
  {
    hide Ids, CountersFit, NoneOversleeps;
  }

  /**
   * While an ASR waits and none is let in, no explanation and no exclusive run is let in, and
   * at most one translation.
   */
  lemma {:induction false} AsrWaitIsShort(overlap: bool, s: State, events: seq<Event>)
    requires Inv(overlap, s) && IsRun(overlap, s, events)
    requires WaitsThroughout(overlap, s, events, Asr) && Admissions(overlap, s, events, Asr) == 0
    ensures Admissions(overlap, s, events, Explanation) == 0 && Admissions(overlap, s, events, Exclusive) == 0
    ensures Admissions(overlap, s, events, Translation) <= TranslationRoom(s) <= 1
    decreases |events|
  {
    if events != [] {
      StepKeeps(overlap, s, events[0]);
      TranslationRoomStep(overlap, s, events[0]);
      AsrWaitIsShort(overlap, Next(overlap, s, events[0]), events[1..]);
    }
  }

  lemma NothingOvertakesTranslation(overlap: bool, s: State, event: Event)
    requires Inv(overlap, s) && Possible(s, event) && s.translationWaiters > 0
    ensures !Takes(overlap, s, event, Explanation) && !Takes(overlap, s, event, Exclusive)
  {
    hide Ids, CountersFit, NoneOversleeps, TasksFit;
  }

  /** While a translation waits, no explanation and no exclusive run is let in. */
  lemma {:induction false} TranslationGoesFirst(overlap: bool, s: State, events: seq<Event>)
    requires Inv(overlap, s) && IsRun(overlap, s, events)
    requires WaitsThroughout(overlap, s, events, Translation)
    ensures Admissions(overlap, s, events, Explanation) == 0 && Admissions(overlap, s, events, Exclusive) == 0
    decreases |events|
  {
    if events != [] {
      StepKeeps(overlap, s, events[0]);
      NothingOvertakesTranslation(overlap, s, events[0]);
      TranslationGoesFirst(overlap, Next(overlap, s, events[0]), events[1..]);
    }
  }

  // The rule of admission, told by who is there and by what has happened

  /** A task of this kind waits. */
  ghost predicate Waiting(tasks: map<nat, Task>, kind: Kind) {
    exists id :: id in tasks && WaitingFor(kind)(tasks[id])
  }

  /** Nothing runs but ASR beside a language model that has ended. */
  ghost predicate Unheld(tasks: map<nat, Task>) {
    forall id | id in tasks && tasks[id].Running? :: tasks[id].overlapped
  }

  ghost predicate LlmRuns(tasks: map<nat, Task>) {
    exists id :: id in tasks && tasks[id].Running? && (tasks[id].kind == Translation || tasks[id].kind == Explanation)
  }

  /** Who may take the device when `burst` ASR runs have had it since the last translation took it. */
  ghost predicate MayStart(tasks: map<nat, Task>, burst: nat, kind: Kind) {
    && Unheld(tasks)
    && match kind
       case Asr => !Waiting(tasks, Translation) || burst < 8
       case Translation => !Waiting(tasks, Asr) || 8 <= burst
       case Explanation => !Waiting(tasks, Asr) && !Waiting(tasks, Translation)
       case Exclusive =>
         && !Waiting(tasks, Asr) && !Waiting(tasks, Translation)
         && forall id | id in tasks :: !tasks[id].Running?
  }

  lemma CountZeroIff(tasks: map<nat, Task>, p: Task -> bool)
    ensures |Ids(tasks, p)| == 0 <==> forall id | id in tasks :: !p(tasks[id])
  {
    if |Ids(tasks, p)| == 0 {
      forall id | id in tasks
        ensures !p(tasks[id])
      {
        if p(tasks[id]) { CountPositive(tasks, id, p); }
      }
    }
    assert (forall id | id in tasks :: !p(tasks[id])) ==> Ids(tasks, p) == {};
  }

  lemma AdmitsIff(overlap: bool, s: State, kind: Kind)
    requires Inv(overlap, s)
    ensures Admits(s, kind) <==> MayStart(s.tasks, s.asrSinceTranslation, kind)
  {
    CountZeroIff(s.tasks, WaitingFor(Asr));
    CountZeroIff(s.tasks, WaitingFor(Translation));
    CountZeroIff(s.tasks, RunningAsr());
    CountZeroIff(s.tasks, Holding());
    hide Ids, NoneOversleeps;
  }

  lemma LlmRunsIff(overlap: bool, s: State)
    requires Inv(overlap, s)
    ensures s.active == LlmActive <==> LlmRuns(s.tasks)
  {
    CountZeroIff(s.tasks, Holding());
    hide Ids, NoneOversleeps;
    if s.active == LlmActive {
      var id :| id in s.tasks && Holding()(s.tasks[id]);
      assert s.active == ActiveFor(s.tasks[id].kind);
    }
  }

  ghost function BurstAfter(overlap: bool, s: State, event: Event, before: nat): nat
    requires Possible(s, event)
  {
    if Takes(overlap, s, event, Translation) then 0
    else if event.Finish? && s.tasks[event.id] == Running(Asr, false) then before + 1
    else before
  }

  /** How many ASR runs have had the device since a translation took it last. */
  ghost function Burst(overlap: bool, s: State, events: seq<Event>, before: nat): nat
    requires IsRun(overlap, s, events)
    decreases |events|
  {
    if events == [] then before
    else Burst(overlap, Next(overlap, s, events[0]), events[1..], BurstAfter(overlap, s, events[0], before))
  }

  /** Some ASR run has ended. */
  ghost predicate AsrEnded(overlap: bool, s: State, events: seq<Event>)
    requires IsRun(overlap, s, events)
    decreases |events|
  {
    && events != []
    && ((events[0].Finish? && s.tasks[events[0].id].kind == Asr) ||
        AsrEnded(overlap, Next(overlap, s, events[0]), events[1..]))
  }

  lemma HistoryStep(overlap: bool, s: State, event: Event)
    requires Possible(s, event)
    ensures Next(overlap, s, event).asrSinceTranslation == BurstAfter(overlap, s, event, s.asrSinceTranslation)
    ensures Next(overlap, s, event).asrCompleted
       <==> s.asrCompleted || (event.Finish? && s.tasks[event.id].kind == Asr)
  {
    hide NotifyAll;
  }

  lemma {:induction false} HistoryIsCounted(overlap: bool, s: State, events: seq<Event>)
    requires IsRun(overlap, s, events)
    ensures End(overlap, s, events).asrSinceTranslation == Burst(overlap, s, events, s.asrSinceTranslation)
    ensures End(overlap, s, events).asrCompleted <==> s.asrCompleted || AsrEnded(overlap, s, events)
    decreases |events|
  {
    hide Next, BurstAfter, Possible;
    if events != [] {
      HistoryStep(overlap, s, events[0]);
      HistoryIsCounted(overlap, Next(overlap, s, events[0]), events[1..]);
    }
  }

  /** What becomes of a task that arrives or looks again, by the tasks there are and the history. */
  ghost function Placed(overlap: bool, events: seq<Event>, event: Event): Task
    requires IsRun(overlap, Initial(), events) && Possible(End(overlap, Initial(), events), event) && !event.Finish?
  {
    var tasks := End(overlap, Initial(), events).tasks;
    var kind := if event.Arrive? then event.kind else tasks[event.id].kind;
    var llm := kind == Translation || kind == Explanation;
    if event.Arrive? && kind == Asr && overlap && LlmRuns(tasks) then Running(Asr, true)
    else if event.Arrive? && llm && !AsrEnded(overlap, Initial(), events) then Timed(kind)
    else if MayStart(tasks, Burst(overlap, Initial(), events, 0), kind) then Running(kind, false)
    else Sleeping(kind)
  }

  /** A waiter does not stand in its own way. */
  lemma CountedAdmits(s: State, id: nat, kind: Kind)
    ensures Admits(Counted(s, kind), kind) == Admits(s, kind)
  {
  }

  lemma PlacedByStep(overlap: bool, s: State, event: Event)
    requires Inv(overlap, s) && Possible(s, event) && !event.Finish?
    ensures
      var kind := if event.Arrive? then event.kind else s.tasks[event.id].kind;
      var llm := kind == Translation || kind == Explanation;
      var task :=
        if event.Arrive? && kind == Asr && overlap && LlmRuns(s.tasks) then Running(Asr, true)
        else if event.Arrive? && llm && !s.asrCompleted then Timed(kind)
        else if MayStart(s.tasks, s.asrSinceTranslation, kind) then Running(kind, false)
        else Sleeping(kind);
      Next(overlap, s, event).tasks == s.tasks[event.id := task]
  {
    LlmRunsIff(overlap, s);
    var kind := if event.Arrive? then event.kind else s.tasks[event.id].kind;
    if event.Arrive? {
      var task := Notified(kind);
      JoinKeeps(overlap, s, event.id, task);
      CountedAdmits(s, event.id, kind);
    }
    AdmitsIff(overlap, s, kind);
    hide Inv, LlmRuns, MayStart;
  }

  /**
   * Over every run: a task that arrives or looks again starts, sleeps or waits for a moment
   * exactly as the rule says, and nobody else is moved.
   */
  lemma PlacedIff(overlap: bool, events: seq<Event>, event: Event)
    requires IsRun(overlap, Initial(), events) && Possible(End(overlap, Initial(), events), event) && !event.Finish?
    ensures
      var s := End(overlap, Initial(), events);
      Next(overlap, s, event).tasks == s.tasks[event.id := Placed(overlap, events, event)]
  {
    InitialInv(overlap);
    RunKeeps(overlap, Initial(), events);
    HistoryIsCounted(overlap, Initial(), events);
    PlacedByStep(overlap, End(overlap, Initial(), events), event);
    hide Inv, MayStart, LlmRuns, Next, IsRun, End, Burst, AsrEnded;
  }

  /** A task that ends is gone, every other waiter looks again, and what runs goes on. */
  lemma FinishWakes(overlap: bool, s: State, id: nat, other: nat)
    requires Possible(s, Finish(id))
    ensures
      var tasks := Next(overlap, s, Finish(id)).tasks;
      && id !in tasks
      && (other in tasks <==> other in s.tasks && other != id)
      && (other in tasks ==>
        tasks[other] == if s.tasks[other].Running? then s.tasks[other] else Notified(s.tasks[other].kind))
  {
  }

  /**
   * The scheduler object. Each method is one stretch that the source runs under the condition's
   * lock; `tasks` records which coroutine is where. A coroutine that does not start sleeps on
   * the condition.
   */
  class GpuScheduler {
    const allowAsrLlmOverlap: bool
    var activeKind: Active
    var activeAsr: int
    var asrWaiters: int
    var translationWaiters: int
    var asrCompleted: bool
    var asrSinceTranslation: nat
    ghost var tasks: map<nat, Task>

    ghost function View(): State
      reads this
    {
      State(activeKind, activeAsr, asrWaiters, translationWaiters, asrCompleted, asrSinceTranslation, tasks)
    }

    ghost predicate Valid()
      reads this
    {
      Inv(allowAsrLlmOverlap, View())
    }

    constructor (allowAsrLlmOverlap: bool)
      ensures Valid() && this.allowAsrLlmOverlap == allowAsrLlmOverlap && View() == Initial()
    {
      this.allowAsrLlmOverlap := allowAsrLlmOverlap;
      activeKind, activeAsr, asrWaiters, translationWaiters := Idle, 0, 0, 0;
      asrCompleted, asrSinceTranslation, tasks := false, 0, map[];
      new;
      InitialInv(allowAsrLlmOverlap);
    }

    predicate AsrMayStart()
      reads this
    {
      && activeKind == Idle
      && (translationWaiters == 0 || asrSinceTranslation < MAX_ASR_BURST_BEFORE_TRANSLATION)
    }

    predicate ExclusiveMayStart()
      reads this
    {
      activeKind == Idle && activeAsr == 0 && asrWaiters == 0 && translationWaiters == 0
    }

    predicate LlmMayStart(translationPriority: bool)
      reads this
    {
      var asrYielded := translationPriority && asrSinceTranslation >= MAX_ASR_BURST_BEFORE_TRANSLATION;
      var noHigherPriorityWork := (asrWaiters == 0 || asrYielded) && (translationPriority || translationWaiters == 0);
      activeKind == Idle && noHigherPriorityWork
    }

    /** `run_asr` up to its first suspension. */
    method EnterAsr(ghost id: nat) returns (started: bool, concurrentWithLlm: bool)
      requires Valid() && id !in tasks
      modifies this
      ensures Valid() && View() == Next(allowAsrLlmOverlap, old(View()), Arrive(id, Asr))
      ensures started <==> tasks[id].Running?
      ensures concurrentWithLlm <==> allowAsrLlmOverlap && LlmRuns(old(tasks))
      ensures started <==> concurrentWithLlm || MayStart(old(tasks), old(asrSinceTranslation), Asr)
      ensures started ==> tasks[id].overlapped == concurrentWithLlm
    {
      hide Inv, NotifyAll, MayStart, LlmRuns;
      PlacedByStep(allowAsrLlmOverlap, View(), Arrive(id, Asr));
      StepKeeps(allowAsrLlmOverlap, View(), Arrive(id, Asr));
      asrWaiters := asrWaiters + 1;
      started, concurrentWithLlm := true, false;
      if activeKind == LlmActive && allowAsrLlmOverlap {
        concurrentWithLlm := true;
      } else if AsrMayStart() {
        activeKind := AsrActive;
      } else {
        tasks := tasks[id := Sleeping(Asr)];
        return false, false;
      }
      activeAsr := activeAsr + 1;
      asrWaiters := asrWaiters - 1;
      tasks := tasks[id := Running(Asr, concurrentWithLlm)];
    }

    /** A woken `run_asr` looks again. */
    method WakeAsr(ghost id: nat) returns (started: bool)
      requires Valid() && id in tasks && tasks[id] == Notified(Asr)
      modifies this
      ensures Valid() && View() == Next(allowAsrLlmOverlap, old(View()), Wake(id))
      ensures started <==> tasks[id].Running?
      ensures started <==> MayStart(old(tasks), old(asrSinceTranslation), Asr)
    {
      hide Inv, NotifyAll, MayStart, LlmRuns;
      PlacedByStep(allowAsrLlmOverlap, View(), Wake(id));
      StepKeeps(allowAsrLlmOverlap, View(), Wake(id));
      started := AsrMayStart();
      if started {
        activeKind := AsrActive;
        activeAsr := activeAsr + 1;
        asrWaiters := asrWaiters - 1;
        tasks := tasks[id := Running(Asr, false)];
      } else {
        tasks := tasks[id := Sleeping(Asr)];
      }
    }

    /** The end of `run_asr`. */
    method LeaveAsr(ghost id: nat, concurrentWithLlm: bool)
      requires Valid() && id in tasks && tasks[id] == Running(Asr, concurrentWithLlm)
      modifies this
      ensures Valid() && View() == Next(allowAsrLlmOverlap, old(View()), Finish(id))
    {
      hide Inv, NotifyAll;
      StepKeeps(allowAsrLlmOverlap, View(), Finish(id));
      activeAsr := activeAsr - 1;
      if !concurrentWithLlm {
        activeKind := Idle;
        asrSinceTranslation := asrSinceTranslation + 1;
      }
      asrCompleted := true;
      tasks := NotifyAll(tasks - {id});
    }

    /** `run_exclusive` up to its first suspension. */
    method EnterExclusive(ghost id: nat) returns (started: bool)
      requires Valid() && id !in tasks
      modifies this
      ensures Valid() && View() == Next(allowAsrLlmOverlap, old(View()), Arrive(id, Exclusive))
      ensures started <==> tasks[id].Running?
      ensures started <==> MayStart(old(tasks), old(asrSinceTranslation), Exclusive)
    {
      hide Inv, NotifyAll, MayStart, LlmRuns;
      PlacedByStep(allowAsrLlmOverlap, View(), Arrive(id, Exclusive));
      StepKeeps(allowAsrLlmOverlap, View(), Arrive(id, Exclusive));
      started := ExclusiveMayStart();
      if started { activeKind := ExclusiveActive; }
      tasks := tasks[id := if started then Running(Exclusive, false) else Sleeping(Exclusive)];
    }

    method WakeExclusive(ghost id: nat) returns (started: bool)
      requires Valid() && id in tasks && tasks[id] == Notified(Exclusive)
      modifies this
      ensures Valid() && View() == Next(allowAsrLlmOverlap, old(View()), Wake(id))
      ensures started <==> tasks[id].Running?
      ensures started <==> MayStart(old(tasks), old(asrSinceTranslation), Exclusive)
    {
      hide Inv, NotifyAll, MayStart, LlmRuns;
      PlacedByStep(allowAsrLlmOverlap, View(), Wake(id));
      StepKeeps(allowAsrLlmOverlap, View(), Wake(id));
      started := ExclusiveMayStart();
      if started { activeKind := ExclusiveActive; }
      tasks := tasks[id := if started then Running(Exclusive, false) else Sleeping(Exclusive)];
    }

    /** The end of `run_exclusive` and of `_run_llm`. */
    method LeaveHolder(ghost id: nat)
      requires Valid() && id in tasks && tasks[id].Running? && tasks[id].kind != Asr
      modifies this
      ensures Valid() && View() == Next(allowAsrLlmOverlap, old(View()), Finish(id))
    {
      hide Inv, NotifyAll;
      StepKeeps(allowAsrLlmOverlap, View(), Finish(id));
      activeKind := Idle;
      tasks := NotifyAll(tasks - {id});
    }

    /** `_run_llm` up to its first suspension; before the first ASR that is a wait of 50 ms. */
    method EnterLlm(ghost id: nat, translationPriority: bool) returns (started: bool)
      requires Valid() && id !in tasks
      modifies this
      ensures Valid()
      ensures View() == Next(allowAsrLlmOverlap, old(View()),
                             Arrive(id, if translationPriority then Translation else Explanation))
      ensures started <==> tasks[id].Running?
      ensures
        var kind := if translationPriority then Translation else Explanation;
        started <==> old(asrCompleted) && MayStart(old(tasks), old(asrSinceTranslation), kind)
    {
      ghost var kind := if translationPriority then Translation else Explanation;
      hide Inv, NotifyAll, MayStart, LlmRuns;
      PlacedByStep(allowAsrLlmOverlap, View(), Arrive(id, kind));
      StepKeeps(allowAsrLlmOverlap, View(), Arrive(id, kind));
      if translationPriority {
        translationWaiters := translationWaiters + 1;
      }
      if !asrCompleted {
        tasks := tasks[id := Timed(kind)];
        return false;
      }
      started := TryLlm(id, translationPriority);
    }

    /** A woken `_run_llm`, or one whose first wait has run out, looks again. */
    method WakeLlm(ghost id: nat, translationPriority: bool) returns (started: bool)
      requires Valid() && id in tasks && (tasks[id].Notified? || tasks[id].Timed?)
      requires tasks[id].kind == if translationPriority then Translation else Explanation
      modifies this
      ensures Valid()
      ensures View() == Next(allowAsrLlmOverlap, old(View()),
                             if old(tasks[id].Notified?) then Wake(id) else Timeout(id))
      ensures started <==> tasks[id].Running?
      ensures
        var kind := if translationPriority then Translation else Explanation;
        started <==> MayStart(old(tasks), old(asrSinceTranslation), kind)
    {
      hide Inv, NotifyAll, MayStart, LlmRuns;
      PlacedByStep(allowAsrLlmOverlap, View(), if tasks[id].Notified? then Wake(id) else Timeout(id));
      StepKeeps(allowAsrLlmOverlap, View(), if tasks[id].Notified? then Wake(id) else Timeout(id));
      started := TryLlm(id, translationPriority);
    }

    /** One turn of the loop in `_run_llm`. */
    method TryLlm(ghost id: nat, translationPriority: bool) returns (started: bool)
      modifies this
      ensures View() == Look(old(View()), id, if translationPriority then Translation else Explanation)
      ensures started <==> tasks[id].Running?
    {
      ghost var kind := if translationPriority then Translation else Explanation;
      started := LlmMayStart(translationPriority);
      if started {
        activeKind := LlmActive;
        if translationPriority {
          asrSinceTranslation := 0;
          translationWaiters := translationWaiters - 1;
        }
        tasks := tasks[id := Running(kind, false)];
      } else {
        tasks := tasks[id := Sleeping(kind)];
      }
    }
  }
}
