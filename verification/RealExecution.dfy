/** The real executor: one uninterrupted session, and any history of sessions cut short by crashes. */
module RealExecution {
  import opened Prelude
  import opened Plan
  import opened Journal
  import opened ExecutionLog

  // ---------- what the outside world answers ----------

  datatype TaskSignal = Quiet | WallClock | RootAborted(cause: CancelCause)

  /** The adapter's final result; a change set carries, per patch, whether applying it succeeded. */
  datatype AdapterResult = ChangeSet(applied: seq<bool>) | AdapterFailed(reason: string)

  /** One task's turn: an abort noticed before it starts, the signal and the result once the adapter is done. */
  datatype Turn = Turn(abortBefore: Option<CancelCause>, signal: TaskSignal, result: AdapterResult)

  /** A session's inputs: the run, its plan, and the answers to every outside call, by event number and by turn. */
  datatype Env = Env(runId: string, tasks: seq<Task>, snapshotEvery: int, replayedAt: string, clock: nat -> string, turn: nat -> Turn)

  datatype Outcome = Complete | Block(reason: string) | CancelledRun

  // ---------- one session as a function ----------

  /** The executor's variables, with the durable operations it has performed. */
  datatype Cursor = Cursor(log: seq<Op>, journal: seq<Event>, seqNo: nat, since: nat, emitted: seq<Event>)

  datatype RunResult = RunResult(cursor: Cursor, outcome: Outcome)

  function EvidenceRef(id: string): ArtifactRef {
    ArtifactRef("execution", "adapter-evidence", "execution/task-" + id + "/evidence.json",
                "Adapter evidence for task " + id + " attempt 1.")
  }

  function NewEvent(env: Env, seqNo: nat, id: string, step: Transition): Event {
    Event(env.runId, id, env.clock(seqNo), 1, seqNo, step)
  }

  /** An event numbered, appended to the journal and remembered. */
  function Pushed(env: Env, c: Cursor, id: string, step: Transition): Cursor {
    var e := NewEvent(env, c.seqNo, id, step);
    Cursor(c.log + [Append(e)], c.journal + [e], c.seqNo + 1, c.since + 1, c.emitted + [e])
  }

  /** The snapshot is rewritten every so many events, and after every terminal one. */
  function Checkpointed(env: Env, c: Cursor, step: Transition): Cursor {
    if c.since >= env.snapshotEvery || step.Terminal() then
      c.(log := c.log + [WriteSnapshot(Reduce(c.journal))], since := 0)
    else c
  }

  function Emit(env: Env, c: Cursor, id: string, step: Transition): Cursor {
    Checkpointed(env, Pushed(env, c, id, step), step)
  }

  function Perform(c: Cursor, op: Op): Cursor { c.(log := c.log + [op]) }

  /** Whether the change set gets as far as being applied. */
  predicate Applies(t: Turn) { t.signal == Quiet && t.result.ChangeSet? }

  function Conclusion(t: Turn, evidence: ArtifactRef): Transition {
    match t.signal
    case WallClock => TimedOut(Some(evidence))
    case RootAborted(cause) => Cancelled(cause, Some(evidence))
    case Quiet =>
      match t.result
      case AdapterFailed(reason) =>
        if reason == "timeout" then TimedOut(Some(evidence))
        else if reason == "aborted" then Cancelled(Abort, Some(evidence))
        else Failed(reason, None, Some(evidence))
      case ChangeSet(applied) =>
        if false in applied then Failed("apply-failed", None, Some(evidence)) else Succeeded(evidence)
  }

  function StopAfter(t: Turn): Option<Outcome> {
    match t.signal
    case WallClock => Some(Block("task-timeout"))
    case RootAborted(_) => Some(CancelledRun)
    case Quiet =>
      match t.result
      case AdapterFailed(reason) =>
        if reason == "timeout" then Some(Block("task-timeout"))
        else if reason == "aborted" then Some(CancelledRun)
        else Some(Block(reason))
      case ChangeSet(applied) => if false in applied then Some(Block("apply-failure")) else None
  }

  datatype TurnResult = TurnResult(cursor: Cursor, stop: Option<Outcome>)

  /** A task already recorded as running: execute it, apply its change set, record the conclusion. */
  function Finish(env: Env, c: Cursor, id: string, t: Turn): TurnResult {
    var executed := Perform(c, Execute(id));
    var done := if Applies(t) then Perform(executed, ApplyChangeSet(id)) else executed;
    TurnResult(Emit(env, done, id, Conclusion(t, EvidenceRef(id))), StopAfter(t))
  }

  function RunTask(env: Env, c: Cursor, id: string, t: Turn): TurnResult {
    if t.abortBefore.Some? then
      TurnResult(Emit(env, c, id, Cancelled(t.abortBefore.value, None)), Some(CancelledRun))
    else
      var running := Emit(env, Emit(env, c, id, Pending), id, Running);
      if IsSynthetic(id) then TurnResult(Emit(env, running, id, Succeeded(EvidenceRef(id))), None)
      else Finish(env, running, id, t)
  }

  function RunTasks(env: Env, c: Cursor, ids: seq<string>, turn: nat): RunResult
    decreases ids
  {
    if ids == [] then RunResult(c, Complete)
    else
      var r := RunTask(env, c, ids[0], env.turn(turn));
      match r.stop
      case Some(outcome) => RunResult(r.cursor, outcome)
      case None => RunTasks(env, r.cursor, ids[1..], turn + 1)
  }

  predicate Finished(j: seq<Event>, id: string) {
    StatusIn(j, id).Some? && StatusIn(j, id).value.Terminal()
  }

  /** The tasks of the plan that the journal does not show as finished. */
  function Remaining(ids: seq<string>, j: seq<Event>): seq<string> {
    if ids == [] then []
    else
      var rest := Remaining(ids[..|ids| - 1], j);
      if Finished(j, ids[|ids| - 1]) then rest else rest + [ids[|ids| - 1]]
  }

  function Appends(events: seq<Event>): seq<Op> { seq(|events|, i requires 0 <= i < |events| => Append(events[i])) }

  function Orphans(env: Env, j: seq<Event>): seq<Event> { Replay(j, env.runId, env.replayedAt, NextSeq(j)) }

  /** Where a session stands once orphans are closed and before its first task. */
  function Opening(env: Env, j: seq<Event>): Cursor {
    var replayed := Orphans(env, j);
    Cursor(Appends(replayed), j + replayed, NextSeq(j + replayed), 0, [])
  }

  /** A whole session over the journal `j` found on disk. */
  function Session(env: Env, j: seq<Event>): RunResult {
    var c := Opening(env, j);
    RunTasks(env, c, Remaining(Ids(env.tasks), c.journal), 0)
  }

  lemma AppendsOneMore(events: seq<Event>, i: nat)
    requires i < |events|
    ensures Appends(events[..i + 1]) == Appends(events[..i]) + [Append(events[i])]
    ensures events[..i + 1] == events[..i] + [events[i]]
  {
  }

  // ---------- the executor itself ----------

  /** The files of a run directory, with everything done to them and to the outside
      world: before this session, and in it. */
  class RunDirectory {
    var journalFile: seq<Event>
    var snapshotFile: Option<Snapshot>
    ghost var history: seq<Op>
    ghost var performed: seq<Op>

    ghost predicate Valid()
      reads this
    {
      journalFile == JournalOf(history + performed) && snapshotFile == SnapshotOf(history + performed)
    }

    constructor (journal: seq<Event>, snapshot: Option<Snapshot>, ghost before: seq<Op>)
      requires journal == JournalOf(before) && snapshot == SnapshotOf(before)
      ensures Valid() && history == before && performed == []
    {
      journalFile, snapshotFile, history, performed := journal, snapshot, before, [];
      new;
      assert before + [] == before;
    }

    ghost method Record(op: Op)
      modifies this`performed
      ensures performed == old(performed) + [op]
      ensures JournalOf(history + performed) ==
        if op.Append? then JournalOf(history + old(performed)) + [op.event] else JournalOf(history + old(performed))
      ensures SnapshotOf(history + performed) ==
        if op.WriteSnapshot? then Some(op.snapshot) else SnapshotOf(history + old(performed))
    {
      performed := performed + [op];
      assert history + performed == (history + old(performed)) + [op];
      Snoc(history + old(performed), op);
    }

    method AppendEvent(e: Event)
      requires Valid()
      modifies this`journalFile, this`performed
      ensures Valid() && performed == old(performed) + [Append(e)]
    {
      journalFile := journalFile + [e];
      Record(Append(e));
    }

    method WriteSnapshotAtomic(s: Snapshot)
      requires Valid()
      modifies this`snapshotFile, this`performed
      ensures Valid() && performed == old(performed) + [WriteSnapshot(s)]
    {
      snapshotFile := Some(s);
      Record(WriteSnapshot(s));
    }

    /** A call to the adapter or to the change-set applier. */
    ghost method Call(op: Op)
      requires Valid() && (op.Execute? || op.ApplyChangeSet?)
      modifies this`performed
      ensures Valid() && performed == old(performed) + [op]
    {
      Record(op);
    }
  }

  class RealExecutor {
    const dir: RunDirectory
    var allJournalEvents: seq<Event>
    var events: seq<Event>
    var seqNo: nat
    var eventsSinceSnapshot: nat

    /** The executor's variables as a value. */
    ghost function Value(): Cursor
      reads this, dir
    {
      Cursor(dir.performed, allJournalEvents, seqNo, eventsSinceSnapshot, events)
    }

    constructor (dir: RunDirectory)
      ensures this.dir == dir
    {
      this.dir := dir;
      allJournalEvents, events, seqNo, eventsSinceSnapshot := [], [], 0, 0;
    }

    method PushEvent(env: Env, id: string, step: Transition)
      requires dir.Valid()
      modifies this, dir`journalFile, dir`performed
      ensures dir.Valid() && Value() == Pushed(env, old(Value()), id, step)
    {
      var journalEvent := NewEvent(env, seqNo, id, step);
      seqNo := seqNo + 1;
      dir.AppendEvent(journalEvent);
      allJournalEvents := allJournalEvents + [journalEvent];
      events := events + [journalEvent];
      eventsSinceSnapshot := eventsSinceSnapshot + 1;
    }

    method EmitEvent(env: Env, id: string, step: Transition)
      requires dir.Valid()
      modifies this, dir`journalFile, dir`snapshotFile, dir`performed
      ensures dir.Valid() && Value() == Emit(env, old(Value()), id, step)
    {
      PushEvent(env, id, step);
      if eventsSinceSnapshot >= env.snapshotEvery || step.Terminal() {
        var snapshot := ReduceJournalToSnapshot(allJournalEvents);
        dir.WriteSnapshotAtomic(snapshot);
        eventsSinceSnapshot := 0;
      }
    }

    method NextSeqOf(journal: seq<Event>) returns (n: nat)
      ensures n == NextSeq(journal)
    {
      var max := 0;
      for i := 0 to |journal|
        invariant max == Reduce(journal[..i]).lastEventSeq
      {
        assert journal[..i + 1][..i] == journal[..i];
        max := Max(max, journal[i].seqNo);
      }
      assert journal[..|journal|] == journal;
      n := max + 1;
    }

    method RemainingTasks(ids: seq<string>) returns (remaining: seq<string>)
      ensures remaining == Remaining(ids, allJournalEvents)
    {
      var completedAtStart := ReduceJournalToSnapshot(allJournalEvents);
      remaining := [];
      for i := 0 to |ids|
        invariant remaining == Remaining(ids[..i], allJournalEvents)
      {
        assert ids[..i + 1][..i] == ids[..i];
        if !(ids[i] in completedAtStart.tasks && completedAtStart.tasks[ids[i]].status.Terminal()) {
          remaining := remaining + [ids[i]];
        }
      }
      assert ids[..|ids|] == ids;
    }

    /** Reading the journal and closing orphaned tasks. */
    method Open(env: Env)
      requires dir.Valid() && dir.performed == []
      modifies this, dir`journalFile, dir`snapshotFile, dir`performed
      ensures dir.Valid() && Value() == Opening(env, old(dir.journalFile))
    {
      allJournalEvents := dir.journalFile;
      var next := NextSeqOf(allJournalEvents);
      var replayed := ReplayOrphanedTasks(env.runId, allJournalEvents, env.replayedAt, next);
      for i := 0 to |replayed|
        invariant dir.Valid() && dir.performed == Appends(replayed[..i])
        invariant allJournalEvents == old(dir.journalFile) + replayed[..i]
      {
        dir.AppendEvent(replayed[i]);
        allJournalEvents := allJournalEvents + [replayed[i]];
        AppendsOneMore(replayed, i);
      }
      assert replayed[..|replayed|] == replayed;
      events, eventsSinceSnapshot := [], 0;
      seqNo := NextSeqOf(allJournalEvents);
    }

    /** The executor: after it, the run directory and the results are those of the session
        function over the journal it found. */
    method Run(env: Env) returns (outcome: Outcome)
      requires dir.Valid() && dir.performed == []
      modifies this, dir`journalFile, dir`snapshotFile, dir`performed
      ensures dir.Valid()
      ensures RunResult(Value(), outcome) == Session(env, old(dir.journalFile))
    {
      Open(env);
      var remaining := RemainingTasks(Ids(env.tasks));
      outcome := Complete;
      var index := 0;
      while index < |remaining|
        invariant index <= |remaining| && dir.Valid()
        invariant Session(env, old(dir.journalFile)) == RunTasks(env, Value(), remaining[index..], index)
      {
        assert remaining[index..][0] == remaining[index] && remaining[index..][1..] == remaining[index + 1..];
        var stop := RunOne(env, remaining[index], env.turn(index));
        if stop.Some? {
          return stop.value;
        }
        index := index + 1;
      }
    }

    /** One iteration of the task loop; None means the loop goes on. */
    method RunOne(env: Env, id: string, t: Turn) returns (stop: Option<Outcome>)
      requires dir.Valid()
      modifies this, dir`journalFile, dir`snapshotFile, dir`performed
      ensures dir.Valid() && TurnResult(Value(), stop) == RunTask(env, old(Value()), id, t)
    {
      if t.abortBefore.Some? {
        EmitEvent(env, id, Cancelled(t.abortBefore.value, None));
        return Some(CancelledRun);
      }
      EmitEvent(env, id, Pending);
      EmitEvent(env, id, Running);
      if IsSynthetic(id) {
        EmitEvent(env, id, Succeeded(EvidenceRef(id)));
        return None;
      }
      stop := FinishTask(env, id, t);
    }

    method FinishTask(env: Env, id: string, t: Turn) returns (stop: Option<Outcome>)
      requires dir.Valid()
      modifies this, dir`journalFile, dir`snapshotFile, dir`performed
      ensures dir.Valid() && TurnResult(Value(), stop) == Finish(env, old(Value()), id, t)
    {
      dir.Call(Execute(id));
      var evidence := EvidenceRef(id);
      if t.signal.WallClock? {
        EmitEvent(env, id, TimedOut(Some(evidence)));
        return Some(Block("task-timeout"));
      }
      if t.signal.RootAborted? {
        EmitEvent(env, id, Cancelled(t.signal.cause, Some(evidence)));
        return Some(CancelledRun);
      }
      if t.result.AdapterFailed? {
        if t.result.reason == "timeout" {
          EmitEvent(env, id, TimedOut(Some(evidence)));
          return Some(Block("task-timeout"));
        } else if t.result.reason == "aborted" {
          EmitEvent(env, id, Cancelled(Abort, Some(evidence)));
          return Some(CancelledRun);
        } else {
          EmitEvent(env, id, Failed(t.result.reason, None, Some(evidence)));
          return Some(Block(t.result.reason));
        }
      }
      dir.Call(ApplyChangeSet(id));
      if false in t.result.applied {
        EmitEvent(env, id, Failed("apply-failed", None, Some(evidence)));
        return Some(Block("apply-failure"));
      }
      EmitEvent(env, id, Succeeded(evidence));
      return None;
    }
  }
}
