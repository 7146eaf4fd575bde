/**
 * The worker-side gate (workers/model_worker/main.py, `_inference_lane` and `single_gpu_call`):
 * an inference keeps its lane until it really ends, whether or not its caller still waits.
 */
module WorkerGate {
  import opened Sequences

  datatype Lane = AsrLane | LlmLane | ExclusiveLane

  const LLM_CALLS: set<string> :=
    {"translate", "topics", "explain", "summarize", "teaching_part", "course_question"}

  /** Only the shared resident layout lets two kinds of model work side by side. */
  function InferenceLane(sharedResidentModels: bool, name: string): Lane {
    if !sharedResidentModels then ExclusiveLane
    else if name == "transcribe" then AsrLane
    else if name in LLM_CALLS then LlmLane
    else ExclusiveLane
  }

  predicate IsTextCall(name: string) {
    || name == "translate" || name == "topics" || name == "explain"
    || name == "summarize" || name == "teaching_part" || name == "course_question"
  }

  predicate SideBySide(a: Lane, b: Lane) {
    a != b && a != ExclusiveLane && b != ExclusiveLane
  }

  /** Two calls may run side by side only as a transcription and a text model in the shared layout. */
  lemma SideBySideIff(sharedResidentModels: bool, a: string, b: string)
    ensures SideBySide(InferenceLane(sharedResidentModels, a), InferenceLane(sharedResidentModels, b))
       <==> (&& sharedResidentModels
             && ((a == "transcribe" && IsTextCall(b)) || (b == "transcribe" && IsTextCall(a))))
  {
  }

  /** It has started and its inference has not ended. */
  predicate Live(started: seq<Lane>, ended: set<nat>, task: nat) {
    task < |started| && task !in ended
  }

  /** At most one live task a lane, and nothing beside an exclusive one. */
  ghost predicate Bounded(started: seq<Lane>, ended: set<nat>) {
    forall a: nat, b: nat | Live(started, ended, a) && Live(started, ended, b) && a != b ::
      SideBySide(started[a], started[b])
  }

  /** The table names the live task of every lane that has one. */
  ghost predicate TableFits(calls: map<Lane, nat>, started: seq<Lane>, ended: set<nat>) {
    && (forall lane | lane in calls :: calls[lane] < |started| && started[calls[lane]] == lane)
    && (forall task: nat | Live(started, ended, task) :: started[task] in calls && calls[started[task]] == task)
    && (forall task | task in ended :: task < |started|)
  }

  function ActiveLanes(calls: map<Lane, nat>, ended: set<nat>): set<Lane> {
    set lane | lane in calls && calls[lane] !in ended
  }

  predicate Busy(lane: Lane, active: set<Lane>) {
    (lane == ExclusiveLane && active != {}) || ExclusiveLane in active || lane in active
  }

  /** The test on the table is the test against everything that is still alive. */
  lemma BusyIff(calls: map<Lane, nat>, started: seq<Lane>, ended: set<nat>, lane: Lane)
    requires TableFits(calls, started, ended)
    ensures Busy(lane, ActiveLanes(calls, ended))
       <==> exists task: nat :: Live(started, ended, task) && !SideBySide(lane, started[task])
  {
    var active := ActiveLanes(calls, ended);
    if Busy(lane, active) {
      var other :| other in active && !SideBySide(lane, other);
      assert Live(started, ended, calls[other]);
    } else {
      forall task: nat | Live(started, ended, task)
        ensures SideBySide(lane, started[task])
      {
        assert started[task] in active;
      }
    }
  }

  /** A task that starts when nothing is in its way keeps the bound. */
  lemma StartKeeps(calls: map<Lane, nat>, started: seq<Lane>, ended: set<nat>, lane: Lane)
    requires TableFits(calls, started, ended) && Bounded(started, ended)
    requires !Busy(lane, ActiveLanes(calls, ended))
    ensures TableFits(calls[lane := |started|], started + [lane], ended)
    ensures Bounded(started + [lane], ended)
    ensures forall task: nat :: Live(started + [lane], ended, task) <==> task == |started| || Live(started, ended, task)
  {
    BusyIff(calls, started, ended, lane);
    forall task: nat | Live(started + [lane], ended, task) && task < |started|
      ensures Live(started, ended, task)
    {
    }
  }

  class Gate {
    // `_active_gpu_calls`: the latest task of each lane, ended or not.
    var calls: map<Lane, nat>
    // Every task ever started, by its lane, and those whose inference has ended.
    var started: seq<Lane>
    var ended: set<nat>
    // The tasks whose callers still wait for an answer.
    var waiting: set<nat>

    ghost predicate Valid()
      reads this
    {
      && TableFits(calls, started, ended) && Bounded(started, ended)
      && forall task | task in waiting :: Live(started, ended, task)
    }

    constructor ()
      ensures Valid() && started == [] && ended == {} && waiting == {}
    {
      calls, ended, started, waiting := map[], {}, [], {};
    }

    /**
     * A call is refused exactly when an inference that is still alive, whether or not somebody
     * waits for it, could not run beside it; otherwise its task starts, and the caller waits.
     */
    method Call(sharedResidentModels: bool, name: string) returns (task: Option<nat>)
      requires Valid()
      modifies this`calls, this`started, this`waiting
      ensures Valid()
      ensures
        var lane := InferenceLane(sharedResidentModels, name);
        && (task.None? <==> exists other: nat ::
             Live(old(started), ended, other) && !SideBySide(lane, old(started)[other]))
        && started == (if task.Some? then old(started) + [lane] else old(started))
        && (task.Some? ==> task.value == |old(started)|)
        && waiting == (if task.Some? then old(waiting) + {task.value} else old(waiting))
    {
      hide TableFits, Bounded, Busy, InferenceLane, SideBySide;
      var lane := InferenceLane(sharedResidentModels, name);
      BusyIff(calls, started, ended, lane);
      if Busy(lane, ActiveLanes(calls, ended)) { return None; }
      StartKeeps(calls, started, ended, lane);
      task := Some(|started|);
      calls := calls[lane := |started|];
      started := started + [lane];
      waiting := waiting + {task.value};
    }

    /** A caller goes away. Its inference stays alive, and keeps refusing what it refused before. */
    method Disconnect(task: nat)
      requires Valid() && task in waiting
      modifies this`waiting
      ensures Valid() && waiting == old(waiting) - {task}
      ensures Live(started, ended, task)
    {
      waiting := waiting - {task};
    }

    /** An inference ends; whoever still waits for it gets the answer. */
    method End(task: nat)
      requires Valid() && Live(started, ended, task)
      modifies this`ended, this`waiting
      ensures Valid() && ended == old(ended) + {task} && waiting == old(waiting) - {task}
    {
      ended, waiting := ended + {task}, waiting - {task};
    }
  }
}
