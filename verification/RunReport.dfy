/** The report made of a real session, against the journal's snapshot and against the dry run. */
module RunReport {
  import opened Prelude
  import opened Plan
  import opened Journal
  import opened ExecutionLog
  import opened RealExecution
  import opened CrashSafety
  import opened OncePerTask
  import opened DryRun

  // ---------- realExecutionAsDryRunResult ----------

  /** The map of terminal events by task: the last one of a task wins. */
  function TerminalOf(events: seq<Event>, id: string): Option<Event> {
    if events == [] then None
    else
      var e := events[|events| - 1];
      if e.taskId == id && e.step.Terminal() then Some(e) else TerminalOf(events[..|events| - 1], id)
  }

  function EvidenceOf(e: Option<Event>): seq<ArtifactRef> {
    if e.Some? && e.value.step.Evidence().Some? then [e.value.step.Evidence().value] else []
  }

  function ReasonOf(e: Option<Event>): Option<string> {
    if e.Some? && e.value.step.Failed? then Some(e.value.step.reason) else None
  }

  function ReportTask(task: Task, events: seq<Event>): TaskResult {
    var terminal := TerminalOf(events, task.planTaskId);
    TaskResult(task, terminal.Some? && terminal.value.step.Succeeded?, EvidenceOf(terminal), ReasonOf(terminal))
  }

  function AllEvidence(events: seq<Event>): seq<ArtifactRef> {
    if events == [] then [] else AllEvidence(events[..|events| - 1]) + EvidenceOf(Some(events[|events| - 1]))
  }

  predicate Observed(events: seq<Event>, id: string) { exists i :: 0 <= i < |events| && events[i].taskId == id }

  function ObservedTasks(tasks: seq<Task>, events: seq<Event>): seq<Task> {
    if tasks == [] then []
    else
      var rest := ObservedTasks(tasks[..|tasks| - 1], events);
      if Observed(events, tasks[|tasks| - 1].planTaskId) then rest + [tasks[|tasks| - 1]] else rest
  }

  function AsDryRun(tasks: seq<Task>, r: RunResult, observedOnly: bool): DryRunResult<Event> {
    var events := r.cursor.emitted;
    var source := if observedOnly then ObservedTasks(tasks, events) else tasks;
    var results := seq(|source|, i requires 0 <= i < |source| => ReportTask(source[i], events));
    DryRunResult(r.outcome == Complete && AllSucceeded(results), results, events, AllEvidence(events))
  }

  // ---------- what a session leaves behind ----------

  /** The session's own events explain every record that changed since `base`. */
  ghost predicate Mirrors(base: seq<Event>, c: Cursor, touched: seq<string>) {
    && c.journal == base + c.emitted
    && forall id ::
      match TerminalOf(c.emitted, id)
      case None => RecordIn(c.journal, id) == RecordIn(base, id)
      case Some(e) => id in touched && RecordIn(c.journal, id) == Some(TaskFromEvent(e))
  }

  /** Mid-turn: as above for every task but the one whose turn it is. */
  ghost predicate MirrorsOthers(base: seq<Event>, c: Cursor, touched: seq<string>, id: string) {
    && c.journal == base + c.emitted
    && forall other | other != id ::
      match TerminalOf(c.emitted, other)
      case None => RecordIn(c.journal, other) == RecordIn(base, other)
      case Some(e) => other in touched && RecordIn(c.journal, other) == Some(TaskFromEvent(e))
  }

  ghost predicate KeepsOthers(before: seq<Event>, after: seq<Event>, id: string) {
    forall other | other != id :: TerminalOf(after, other) == TerminalOf(before, other)
  }

  /** The turn of `id` is over, concluded by `step`. */
  ghost predicate TurnDone(base: seq<Event>, before: seq<Event>, c: Cursor, touched: seq<string>, id: string, step: Transition) {
    && Mirrors(base, c, touched + [id])
    && KeepsOthers(before, c.emitted, id)
    && TerminalOf(c.emitted, id).Some? && TerminalOf(c.emitted, id).value.step == step
  }

  lemma PushMirrors(base: seq<Event>, before: seq<Event>, c: Cursor, touched: seq<string>, e: Event, c': Cursor)
    requires MirrorsOthers(base, c, touched, e.taskId) && KeepsOthers(before, c.emitted, e.taskId)
    requires c'.journal == c.journal + [e] && c'.emitted == c.emitted + [e]
    ensures MirrorsOthers(base, c', touched, e.taskId) && KeepsOthers(before, c'.emitted, e.taskId)
    ensures e.step.Terminal() ==> TurnDone(base, before, c', touched, e.taskId, e.step)
  {
  }

  lemma EmitMirrors(env: Env, base: seq<Event>, before: seq<Event>, c: Cursor, touched: seq<string>, id: string, step: Transition)
    requires MirrorsOthers(base, c, touched, id) && KeepsOthers(before, c.emitted, id)
    ensures var c' := Emit(env, c, id, step);
      && MirrorsOthers(base, c', touched, id) && KeepsOthers(before, c'.emitted, id)
      && (step.Terminal() ==> TurnDone(base, before, c', touched, id, step))
  {
    PushMirrors(base, before, c, touched, NewEvent(env, c.seqNo, id, step), Emit(env, c, id, step));
  }

  lemma FinishMirrors(env: Env, base: seq<Event>, before: seq<Event>, c: Cursor, touched: seq<string>, id: string, t: Turn)
    requires MirrorsOthers(base, c, touched, id) && KeepsOthers(before, c.emitted, id)
    ensures TurnDone(base, before, Finish(env, c, id, t).cursor, touched, id, Conclusion(t, EvidenceRef(id)))
  {
    var executed := Perform(c, Execute(id));
    var done := if Applies(t) then Perform(executed, ApplyChangeSet(id)) else executed;
    EmitMirrors(env, base, before, done, touched, id, Conclusion(t, EvidenceRef(id)));
  }

  lemma RunTaskMirrors(env: Env, base: seq<Event>, c: Cursor, touched: seq<string>, id: string, t: Turn)
    requires Mirrors(base, c, touched)
    ensures TurnDone(base, c.emitted, RunTask(env, c, id, t).cursor, touched, id, Verdict(id, t))
  {
    if t.abortBefore.Some? {
      EmitMirrors(env, base, c.emitted, c, touched, id, Cancelled(t.abortBefore.value, None));
    } else {
      var c1 := Emit(env, c, id, Pending);
      EmitMirrors(env, base, c.emitted, c, touched, id, Pending);
      EmitMirrors(env, base, c.emitted, c1, touched, id, Running);
      var c2 := Emit(env, c1, id, Running);
      if IsSynthetic(id) {
        EmitMirrors(env, base, c.emitted, c2, touched, id, Succeeded(EvidenceRef(id)));
      } else {
        FinishMirrors(env, base, c.emitted, c2, touched, id, t);
      }
    }
  }

  /** The loop goes on exactly when the task succeeded. */
  lemma RunTaskStops(env: Env, c: Cursor, id: string, t: Turn)
    ensures RunTask(env, c, id, t).stop.None? <==> Verdict(id, t).Succeeded?
    ensures RunTask(env, c, id, t).stop != Some(Complete)
  {
  }

  /** How many of the tasks, in order, succeed before one does not. */
  function Completed(env: Env, ids: seq<string>, turn: nat): (m: nat)
    ensures m <= |ids|
    decreases ids
  {
    if ids == [] || !Verdict(ids[0], env.turn(turn)).Succeeded? then 0 else 1 + Completed(env, ids[1..], turn + 1)
  }

  lemma {:induction false} CompletedAt(env: Env, ids: seq<string>, turn: nat, k: nat)
    requires k < |ids| && k <= Completed(env, ids, turn)
    ensures Verdict(ids[k], env.turn(turn + k)).Succeeded? <==> k < Completed(env, ids, turn)
    decreases ids
  {
    if k > 0 { CompletedAt(env, ids[1..], turn + 1, k - 1); }
  }

  /** What a run over `ids` reports: the tasks before the first one that does not succeed,
      and nothing about those after it. */
  ghost predicate Reports(env: Env, ids: seq<string>, turn: nat, before: seq<Event>, after: seq<Event>) {
    var m := Completed(env, ids, turn);
    && (forall k :: 0 <= k < m ==> TerminalOf(after, ids[k]).Some? && TerminalOf(after, ids[k]).value.step.Succeeded?)
    && (m < |ids| ==> TerminalOf(after, ids[m]).Some? && !TerminalOf(after, ids[m]).value.step.Succeeded?)
    && (forall id | id !in ids[..m] && (m < |ids| ==> id != ids[m]) :: TerminalOf(after, id) == TerminalOf(before, id))
  }

  /** A run over `ids` is over: the journal mirrors its events, and it reported what it should. */
  ghost predicate RunDone(env: Env, base: seq<Event>, before: seq<Event>, c: Cursor, touched: seq<string>, ids: seq<string>, turn: nat) {
    Mirrors(base, c, touched + ids) && Reports(env, ids, turn, before, c.emitted)
  }

  lemma RunGoesOn(env: Env, base: seq<Event>, before: seq<Event>, mid: Cursor, c: Cursor, touched: seq<string>, ids: seq<string>, turn: nat)
    requires ids != [] && Distinct(ids) && Verdict(ids[0], env.turn(turn)).Succeeded?
    requires TurnDone(base, before, mid, touched, ids[0], Verdict(ids[0], env.turn(turn)))
    requires RunDone(env, base, mid.emitted, c, touched + [ids[0]], ids[1..], turn + 1)
    ensures RunDone(env, base, before, c, touched, ids, turn)
  {
    assert touched + [ids[0]] + ids[1..] == touched + ids;
    ReportsGoOn(env, ids, turn, before, mid.emitted, c.emitted);
  }

  lemma ReportsGoOn(env: Env, ids: seq<string>, turn: nat, before: seq<Event>, mid: seq<Event>, after: seq<Event>)
    requires ids != [] && Distinct(ids) && Verdict(ids[0], env.turn(turn)).Succeeded?
    requires TerminalOf(mid, ids[0]).Some? && TerminalOf(mid, ids[0]).value.step.Succeeded?
    requires forall id | id != ids[0] :: TerminalOf(mid, id) == TerminalOf(before, id)
    requires Reports(env, ids[1..], turn + 1, mid, after)
    ensures Reports(env, ids, turn, before, after)
  {
    var rest, m := ids[1..], Completed(env, ids[1..], turn + 1);
    assert Completed(env, ids, turn) == m + 1 && forall k :: 0 <= k < |rest| ==> rest[k] == ids[k + 1];
    assert ids[..m + 1] == [ids[0]] + rest[..m];
    assert ids[0] !in rest[..m] && (m < |rest| ==> ids[0] != rest[m]);
    assert TerminalOf(after, ids[0]) == TerminalOf(mid, ids[0]);
    forall id | id !in ids[..m + 1] && (m + 1 < |ids| ==> id != ids[m + 1]) ensures TerminalOf(after, id) == TerminalOf(before, id) {
      assert id != ids[0] && id !in rest[..m];
    }
    forall k | 0 <= k < m + 1 ensures TerminalOf(after, ids[k]).Some? && TerminalOf(after, ids[k]).value.step.Succeeded? {
      if k > 0 { assert ids[k] == rest[k - 1]; }
    }
  }

  lemma RunStops(env: Env, base: seq<Event>, before: seq<Event>, c: Cursor, touched: seq<string>, ids: seq<string>, turn: nat)
    requires ids != [] && !Verdict(ids[0], env.turn(turn)).Succeeded?
    requires TurnDone(base, before, c, touched, ids[0], Verdict(ids[0], env.turn(turn)))
    ensures RunDone(env, base, before, c, touched, ids, turn)
  {
  }

  lemma RunEmpty(env: Env, base: seq<Event>, c: Cursor, touched: seq<string>, turn: nat)
    requires Mirrors(base, c, touched)
    ensures RunDone(env, base, c.emitted, c, touched, [], turn)
  {
  }

  lemma {:induction false} RunTasksMirror(env: Env, base: seq<Event>, c: Cursor, touched: seq<string>, ids: seq<string>, turn: nat)
    requires Mirrors(base, c, touched) && Distinct(ids)
    ensures RunDone(env, base, c.emitted, RunTasks(env, c, ids, turn).cursor, touched, ids, turn)
    ensures RunTasks(env, c, ids, turn).outcome == Complete <==> Completed(env, ids, turn) == |ids|
    decreases ids
  {
    if ids == [] {
      RunEmpty(env, base, c, touched, turn);
    } else {
      var id, t := ids[0], env.turn(turn);
      var mid := RunTask(env, c, id, t).cursor;
      RunTaskMirrors(env, base, c, touched, id, t);
      RunTaskStops(env, c, id, t);
      if Verdict(id, t).Succeeded? {
        RunTasksMirror(env, base, mid, touched + [id], ids[1..], turn + 1);
        RunGoesOn(env, base, c.emitted, mid, RunTasks(env, mid, ids[1..], turn + 1).cursor, touched, ids, turn);
      } else {
        RunStops(env, base, c.emitted, mid, touched, ids, turn);
      }
    }
  }

  lemma SessionMirrors(env: Env, j: seq<Event>)
    requires Distinct(Ids(env.tasks))
    ensures var c := Opening(env, j);
      var ids := Remaining(Ids(env.tasks), c.journal);
      var r := Session(env, j);
      && Mirrors(c.journal, r.cursor, ids)
      && (r.outcome == Complete <==> Completed(env, ids, 0) == |ids|)
      && Reports(env, ids, 0, [], r.cursor.emitted)
  {
    var c := Opening(env, j);
    var ids := Remaining(Ids(env.tasks), c.journal);
    RemainingFacts(Ids(env.tasks), c.journal);
    assert c.emitted == [] && c.journal + c.emitted == c.journal && [] + ids == ids;
    assert Session(env, j) == RunTasks(env, c, ids, 0);
    RunTasksMirror(env, c.journal, c, [], ids, 0);
  }

  // ---------- the report against the journal ----------

  /** The report's verdict on a task. */
  predicate Reported(events: seq<Event>, id: string) {
    TerminalOf(events, id).Some? && TerminalOf(events, id).value.step.Succeeded?
  }

  predicate Shows(j: seq<Event>, id: string) { StatusIn(j, id) == Some(IsSucceeded) }

  lemma ReportIs(tasks: seq<Task>, r: RunResult, i: nat)
    requires i < |tasks|
    ensures |AsDryRun(tasks, r, false).tasks| == |tasks|
    ensures AsDryRun(tasks, r, false).tasks[i].succeeded <==> Reported(r.cursor.emitted, tasks[i].planTaskId)
  {
    assert AsDryRun(tasks, r, false).tasks[i] == ReportTask(tasks[i], r.cursor.emitted);
  }

  lemma {:induction false} ObservedTasksAre(tasks: seq<Task>, events: seq<Event>, t: Task)
    ensures t in ObservedTasks(tasks, events) <==> t in tasks && Observed(events, t.planTaskId)
  {
    if tasks != [] {
      var n := |tasks| - 1;
      ObservedTasksAre(tasks[..n], events, t);
      assert tasks == tasks[..n] + [tasks[n]];
    }
  }

  /** The entries of an observed-only report: of the plan's tasks, exactly those that the
      session has an event about, each with that session's verdict. */
  lemma ObservedEntries(tasks: seq<Task>, r: RunResult, t: Task)
    ensures (exists i :: 0 <= i < |AsDryRun(tasks, r, true).tasks| && AsDryRun(tasks, r, true).tasks[i].task == t)
            <==> t in tasks && Observed(r.cursor.emitted, t.planTaskId)
    ensures forall i :: 0 <= i < |AsDryRun(tasks, r, true).tasks| ==>
      var e := AsDryRun(tasks, r, true).tasks[i];
      e.task in tasks && Observed(r.cursor.emitted, e.task.planTaskId)
      && (e.succeeded <==> Reported(r.cursor.emitted, e.task.planTaskId))
  {
    var source, results := ObservedTasks(tasks, r.cursor.emitted), AsDryRun(tasks, r, true).tasks;
    assert |results| == |source|;
    forall i | 0 <= i < |results|
      ensures results[i] == ReportTask(source[i], r.cursor.emitted)
      ensures source[i] in tasks && Observed(r.cursor.emitted, source[i].planTaskId)
    {
      assert source[i] in source;
      ObservedTasksAre(tasks, r.cursor.emitted, source[i]);
    }
    ObservedTasksAre(tasks, r.cursor.emitted, t);
    if t in source {
      var i :| 0 <= i < |source| && source[i] == t;
      assert results[i].task == t;
    }
  }

  /** What a session does to one task: nothing if it was finished; otherwise its report is its record. */
  lemma TaskAfterSession(env: Env, j: seq<Event>, id: string)
    requires Distinct(Ids(env.tasks)) && id in Ids(env.tasks)
    ensures var after, o, events := Session(env, j).cursor.journal, Opening(env, j).journal, Session(env, j).cursor.emitted;
      && (Shows(o, id) <==> Shows(j, id))
      && (Finished(o, id) ==> !Reported(events, id) && StatusIn(after, id) == StatusIn(o, id))
      && (!Finished(o, id) ==> (Reported(events, id) <==> Shows(after, id)))
  {
    var o := Opening(env, j).journal;
    ReplaySettles(j, env.runId, env.replayedAt, NextSeq(j), id);
    SessionMirrors(env, j);
    RemainingFacts(Ids(env.tasks), o);
    MirrorsAt(o, Session(env, j).cursor, Remaining(Ids(env.tasks), o), id);
  }

  lemma MirrorsAt(base: seq<Event>, c: Cursor, touched: seq<string>, id: string)
    requires Mirrors(base, c, touched)
    ensures id !in touched ==> !Reported(c.emitted, id) && StatusIn(c.journal, id) == StatusIn(base, id)
    ensures !Finished(base, id) ==> (Reported(c.emitted, id) <==> Shows(c.journal, id))
  {
  }

  /** Task by task, a session's report says "succeeded" exactly when the journal shows
      success now and did not when the session started. */
  lemma ReportAgainstJournal(env: Env, j: seq<Event>, i: nat)
    requires Distinct(Ids(env.tasks)) && i < |env.tasks|
    ensures var r, id := Session(env, j), env.tasks[i].planTaskId;
      i < |AsDryRun(env.tasks, r, false).tasks|
      && (AsDryRun(env.tasks, r, false).tasks[i].succeeded <==> Shows(r.cursor.journal, id) && !Shows(j, id))
      && (Shows(j, id) ==> Shows(r.cursor.journal, id))
  {
    ReportIs(env.tasks, Session(env, j), i);
    assert Ids(env.tasks)[i] == env.tasks[i].planTaskId;
    TaskAfterSession(env, j, env.tasks[i].planTaskId);
  }

  /** The report agrees with the journal on the success of every task. */
  ghost predicate Agrees(tasks: seq<Task>, r: RunResult) {
    forall i :: 0 <= i < |tasks| ==>
      (AsDryRun(tasks, r, false).tasks[i].succeeded <==> Shows(r.cursor.journal, tasks[i].planTaskId))
  }

  /** The report agrees with the journal's snapshot on every task exactly when no task of
      the plan had succeeded before the session: on a resumed run, it reports the work of
      earlier sessions as failed. */
  lemma ReportAgreesIffNothingSucceededBefore(env: Env, j: seq<Event>)
    requires Distinct(Ids(env.tasks))
    ensures Agrees(env.tasks, Session(env, j)) <==> forall i :: 0 <= i < |env.tasks| ==> !Shows(j, env.tasks[i].planTaskId)
  {
    var tasks, r := env.tasks, Session(env, j);
    forall i | 0 <= i < |tasks|
      ensures (AsDryRun(tasks, r, false).tasks[i].succeeded <==> Shows(r.cursor.journal, tasks[i].planTaskId))
              <==> !Shows(j, tasks[i].planTaskId)
    {
      ReportAgainstJournal(env, j, i);
    }
  }

  ghost predicate AllShow(tasks: seq<Task>, j: seq<Event>) {
    forall i :: 0 <= i < |tasks| ==> Shows(j, tasks[i].planTaskId)
  }

  /** No task of the plan was finished other than by success. */
  ghost predicate NoneLost(tasks: seq<Task>, j: seq<Event>) {
    forall i :: 0 <= i < |tasks| ==> Finished(j, tasks[i].planTaskId) ==> Shows(j, tasks[i].planTaskId)
  }

  /** No task of the plan was left running. */
  ghost predicate NoneOrphaned(tasks: seq<Task>, j: seq<Event>) {
    forall i :: 0 <= i < |tasks| ==> !IsOrphan(j, tasks[i].planTaskId)
  }

  /** Opening a session loses exactly the tasks that were left running. */
  lemma LostAtOpening(env: Env, j: seq<Event>)
    ensures NoneLost(env.tasks, Opening(env, j).journal) <==> NoneLost(env.tasks, j) && NoneOrphaned(env.tasks, j)
  {
    var o := Opening(env, j).journal;
    forall id ensures IsOrphan(j, id) ==> Finished(o, id) && !Shows(o, id)
              ensures !IsOrphan(j, id) ==> (Finished(o, id) <==> Finished(j, id)) && (Shows(o, id) <==> Shows(j, id))
    {
      ReplaySettles(j, env.runId, env.replayedAt, NextSeq(j), id);
    }
  }

  /** After a session every task of the plan has succeeded exactly when the session is
      complete and the journal it found shows no task of the plan as finished without success
      or as left running: on a resumed run "complete" alone does not mean that all tasks succeeded. */
  lemma CompleteMeansSucceeded(env: Env, j: seq<Event>)
    requires Distinct(Ids(env.tasks))
    ensures var r := Session(env, j);
      AllShow(env.tasks, r.cursor.journal) <==>
        r.outcome == Complete && NoneLost(env.tasks, j) && NoneOrphaned(env.tasks, j)
  {
    LostAtOpening(env, j);
    CompleteAfterOpening(env, j);
  }

  lemma CompleteAfterOpening(env: Env, j: seq<Event>)
    requires Distinct(Ids(env.tasks))
    ensures var r := Session(env, j);
      AllShow(env.tasks, r.cursor.journal) <==> r.outcome == Complete && NoneLost(env.tasks, Opening(env, j).journal)
  {
    var tasks, r, o := env.tasks, Session(env, j), Opening(env, j).journal;
    var ids := Remaining(Ids(tasks), o);
    RemainingFacts(Ids(tasks), o);
    SessionMirrors(env, j);
    forall i | 0 <= i < |tasks|
      ensures Finished(o, tasks[i].planTaskId) ==> (Shows(r.cursor.journal, tasks[i].planTaskId) <==> Shows(o, tasks[i].planTaskId))
      ensures !Finished(o, tasks[i].planTaskId) && r.outcome == Complete ==> Shows(r.cursor.journal, tasks[i].planTaskId)
    {
      var id := tasks[i].planTaskId;
      assert Ids(tasks)[i] == id;
      TaskAfterSession(env, j, id);
    }
    if r.outcome != Complete {
      var lost := ids[Completed(env, ids, 0)];
      assert TerminalOf(r.cursor.emitted, lost).Some? && !Reported(r.cursor.emitted, lost);
      assert lost in ids && lost in Ids(tasks);
      var i :| 0 <= i < |tasks| && Ids(tasks)[i] == lost;
      TaskAfterSession(env, j, lost);
      assert !Shows(r.cursor.journal, tasks[i].planTaskId);
    }
  }

  // ---------- the real run against the dry run ----------

  /** The tasks whose turn does not end in success, for whatever reason. */
  function Failing(env: Env): set<string> {
    set i | 0 <= i < |env.tasks| && !Verdict(env.tasks[i].planTaskId, env.turn(i)).Succeeded? :: env.tasks[i].planTaskId
  }

  /** In the dry run, every task before the first failing one succeeds. */
  lemma {:induction false} DryPrefixSucceeds(env: Env, i: nat)
    requires Distinct(Ids(env.tasks)) && TopologicallyOrdered(env.tasks)
    requires i < Completed(env, Ids(env.tasks), 0)
    ensures DryRunOf(env.tasks, Failing(env)).tasks[i].succeeded
    decreases i
  {
    var tasks, failed := env.tasks, Failing(env);
    ResultAt(tasks, failed, i);
    CompletedAt(env, Ids(tasks), 0, i);
    forall d | d in tasks[i].dependsOn ensures HasSucceeded(ScheduleAll(tasks[..i], failed).status, d) {
      var k := DependencyIndex(tasks, i, d);
      DryPrefixSucceeds(env, k);
      SeenAt(tasks, failed, k, i);
    }
  }

  /** What a whole session over an empty journal reports: the tasks before the first failing one. */
  lemma FreshReport(env: Env)
    requires Distinct(Ids(env.tasks))
    ensures var m, r := Completed(env, Ids(env.tasks), 0), Session(env, []);
      && (r.outcome == Complete <==> m == |env.tasks|)
      && forall i :: 0 <= i < |env.tasks| ==> (Reported(r.cursor.emitted, env.tasks[i].planTaskId) <==> i < m)
  {
    var ids := Ids(env.tasks);
    AtMostOneOrphan(env, []);
    assert Opening(env, []).journal == [];
    NothingFinished(ids);
    SessionMirrors(env, []);
    var m, events := Completed(env, ids, 0), Session(env, []).cursor.emitted;
    forall i | 0 <= i < |ids| ensures Reported(events, ids[i]) <==> i < m { ReportedIff(env, ids, events, i); }
    forall i | 0 <= i < |env.tasks| ensures Reported(events, env.tasks[i].planTaskId) <==> i < m {
      assert ids[i] == env.tasks[i].planTaskId;
    }
  }

  lemma ReportedIff(env: Env, ids: seq<string>, events: seq<Event>, i: nat)
    requires Distinct(ids) && Reports(env, ids, 0, [], events) && i < |ids|
    ensures Reported(events, ids[i]) <==> i < Completed(env, ids, 0)
  {
  }

  lemma AllReported(results: seq<TaskResult>, m: nat)
    requires m <= |results| && forall i :: 0 <= i < |results| ==> (results[i].succeeded <==> i < m)
    ensures AllSucceeded(results) <==> m == |results|
  {
    if m < |results| { assert !results[m].succeeded; }
  }

  /** From an empty journal, with any mixture of failures, timeouts and aborts: a task the
      real run reports as succeeded also succeeds in the dry run that fails the same tasks,
      and the two runs' verdicts are equal. */
  lemma RealRefinesDry(env: Env)
    requires Distinct(Ids(env.tasks)) && TopologicallyOrdered(env.tasks)
    ensures var report, dry := AsDryRun(env.tasks, Session(env, []), false), DryRunOf(env.tasks, Failing(env));
      && |report.tasks| == |dry.tasks| == |env.tasks|
      && (forall i :: 0 <= i < |env.tasks| ==> report.tasks[i].succeeded ==> dry.tasks[i].succeeded)
      && (report.succeeded <==> dry.succeeded)
  {
    var tasks := env.tasks;
    var m, dry := Completed(env, Ids(tasks), 0), DryRunOf(tasks, Failing(env));
    var r := Session(env, []);
    var report := AsDryRun(tasks, r, false);
    FreshReport(env);
    forall i | 0 <= i < |tasks| ensures report.tasks[i].succeeded <==> i < m { ReportIs(tasks, r, i); }
    AllReported(report.tasks, m);
    forall i | 0 <= i < m ensures dry.tasks[i].succeeded { DryPrefixSucceeds(env, i); }
    if m < |tasks| { DryFailsAt(env); }
  }

  lemma DryFailsAt(env: Env)
    requires Distinct(Ids(env.tasks)) && Completed(env, Ids(env.tasks), 0) < |env.tasks|
    ensures !DryRunOf(env.tasks, Failing(env)).succeeded
  {
    var m := Completed(env, Ids(env.tasks), 0);
    CompletedAt(env, Ids(env.tasks), 0, m);
    ResultAt(env.tasks, Failing(env), m);
  }

  // ---------- a resumed run ----------

  const FIRST := Task("task-a", [])
  const SECOND := Task("task-b", [])

  /** The first task succeeds and the adapter fails the second. */
  function FirstRun(): Env {
    Env("run", [FIRST, SECOND], 20, "", _ => "", turn => if turn == 0 then SUCCESS else Turn(None, Quiet, AdapterFailed("broken")))
  }

  /** The same plan again; no task is left, so nothing that this environment answers matters. */
  function SecondRun(): Env { Env("run", [FIRST, SECOND], 20, "", _ => "", _ => SUCCESS) }

  function FirstBoot(): Boot { Boot(FirstRun(), |Session(FirstRun(), []).cursor.log|) }

  lemma JournalAfterFirst()
    ensures JournalOf(Lifetime([FirstBoot()])) == Session(FirstRun(), []).cursor.journal
    ensures Ids(FirstRun().tasks) == ["task-a", "task-b"] && Distinct(Ids(FirstRun().tasks))
  {
    var b := FirstBoot();
    var log := Session(b.env, []).cursor.log;
    assert Distinct(Ids(b.env.tasks)) && Ids(b.env.tasks) == ["task-a", "task-b"];
    SessionReady(b.env, []);
    assert [] + log == log;
    assert [b][..0] == [] && Lifetime([]) == [];
    assert Lifetime([b]) == log;
  }

  lemma {:induction false} TerminalIsTerminal(events: seq<Event>, id: string)
    ensures TerminalOf(events, id).Some? ==> TerminalOf(events, id).value.step.Terminal()
  {
    if events != [] { TerminalIsTerminal(events[..|events| - 1], id); }
  }

  lemma OneOfTwo(env: Env, a: string, b: string)
    requires Verdict(a, env.turn(0)).Succeeded? && !Verdict(b, env.turn(1)).Succeeded?
    ensures Completed(env, [a, b], 0) == 1
  {
    assert [a, b][1..] == [b];
  }

  /** A session over an empty journal whose second and last task does not succeed. */
  lemma SecondFails(env: Env, a: string, b: string)
    requires Ids(env.tasks) == [a, b] && Distinct([a, b])
    requires Verdict(a, env.turn(0)).Succeeded? && !Verdict(b, env.turn(1)).Succeeded?
    ensures var j := Session(env, []).cursor.journal;
      Shows(j, a) && Finished(j, b) && !Shows(j, b)
  {
    var r, ids := Session(env, []), [a, b];
    assert Opening(env, []).journal == [] by { AtMostOneOrphan(env, []); }
    assert Remaining(ids, []) == ids by { NothingFinished(ids); }
    assert Mirrors([], r.cursor, ids) && Reports(env, ids, 0, [], r.cursor.emitted) by { SessionMirrors(env, []); }
    OneOfTwo(env, a, b);
    assert Reported(r.cursor.emitted, ids[0]) && !Reported(r.cursor.emitted, ids[1]);
    assert TerminalOf(r.cursor.emitted, ids[1]).Some?;
    TerminalIsTerminal(r.cursor.emitted, b);
  }

  lemma AfterFirst()
    ensures var j := JournalOf(Lifetime([FirstBoot()]));
      Shows(j, "task-a") && Finished(j, "task-b") && !Shows(j, "task-b")
  {
    JournalAfterFirst();
    SecondFails(FirstRun(), "task-a", "task-b");
  }

  /** A reachable resumed run: after a first session in which the second task failed, the next
      session is complete although that task has not succeeded, and reports the first task as
      failed although the journal shows its success. */
  lemma ResumedRunMisreports()
    ensures var j := JournalOf(Lifetime([FirstBoot()]));
      var r := Session(SecondRun(), j);
      && r.outcome == Complete
      && !Shows(r.cursor.journal, "task-b")
      && Shows(r.cursor.journal, "task-a") && !AsDryRun([FIRST, SECOND], r, false).tasks[0].succeeded
  {
    AfterFirst();
    assert Ids(SecondRun().tasks) == ["task-a", "task-b"];
    Resuming(SecondRun(), JournalOf(Lifetime([FirstBoot()])), "task-a", "task-b");
  }

  /** A session that finds its two tasks finished, the second without success. */
  lemma Resuming(env: Env, j: seq<Event>, a: string, b: string)
    requires Ids(env.tasks) == [a, b] && Distinct([a, b]) && Shows(j, a) && Finished(j, b) && !Shows(j, b)
    ensures var r := Session(env, j);
      && r.outcome == Complete && !Shows(r.cursor.journal, b) && Shows(r.cursor.journal, a)
      && |AsDryRun(env.tasks, r, false).tasks| == 2 && !AsDryRun(env.tasks, r, false).tasks[0].succeeded
  {
    AllFinished(env, j);
    assert b == Ids(env.tasks)[1];
    ReplaySettles(j, env.runId, env.replayedAt, NextSeq(j), b);
    ReportAgainstJournal(env, j, 0);
    ReportIs(env.tasks, Session(env, j), 0);
  }

  lemma {:induction false} NothingLeft(ids: seq<string>, j: seq<Event>)
    requires forall i :: 0 <= i < |ids| ==> Finished(j, ids[i])
    ensures Remaining(ids, j) == []
  {
    if ids != [] { NothingLeft(ids[..|ids| - 1], j); }
  }

  /** A session that finds all tasks finished is complete at once. */
  lemma AllFinished(env: Env, j: seq<Event>)
    requires forall i :: 0 <= i < |env.tasks| ==> Finished(j, Ids(env.tasks)[i])
    ensures Session(env, j).outcome == Complete && Session(env, j).cursor.journal == Opening(env, j).journal
  {
    forall i | 0 <= i < |env.tasks| ensures Finished(Opening(env, j).journal, Ids(env.tasks)[i]) {
      ReplaySettles(j, env.runId, env.replayedAt, NextSeq(j), Ids(env.tasks)[i]);
    }
    NothingLeft(Ids(env.tasks), Opening(env, j).journal);
  }

  // ---------- what a report says ----------

  /** Event `k` is the last one about `id` that is neither pending nor running. */
  ghost predicate LastTerminal(events: seq<Event>, id: string, k: int) {
    && 0 <= k < |events| && events[k].taskId == id && !events[k].step.Pending? && !events[k].step.Running?
    && forall i :: k < i < |events| ==> events[i].taskId != id || events[i].step.Pending? || events[i].step.Running?
  }

  lemma {:induction false} TerminalOfIs(events: seq<Event>, id: string)
    ensures TerminalOf(events, id).None? <==> forall k :: !LastTerminal(events, id, k)
    ensures forall k | LastTerminal(events, id, k) :: TerminalOf(events, id) == Some(events[k])
  {
    if events != [] {
      var n := |events| - 1;
      TerminalOfIs(events[..n], id);
      if events[n].taskId == id && !events[n].step.Pending? && !events[n].step.Running? {
        assert LastTerminal(events, id, n);
      } else {
        forall k ensures LastTerminal(events, id, k) <==> LastTerminal(events[..n], id, k) {
          if 0 <= k < n { assert events[..n][k] == events[k]; }
        }
      }
    }
  }

  /** What a task's entry says, going by `events`: succeeded or not, its evidence if it has any and
      its reason if it is a failure, all from the last terminal event about it. Without one it is failed. */
  ghost predicate EntryTells(entry: TaskResult, events: seq<Event>) {
    var id := entry.task.planTaskId;
    && (forall k | LastTerminal(events, id, k) ::
          && (entry.succeeded <==> events[k].step.Succeeded?)
          && (entry.evidence == match events[k].step.Evidence() case Some(a) => [a] case None => [])
          && (entry.reason == if events[k].step.Failed? then Some(events[k].step.reason) else None))
    && ((forall k :: !LastTerminal(events, id, k)) ==> !entry.succeeded && entry.evidence == [] && entry.reason == None)
  }

  lemma ReportTaskTells(task: Task, events: seq<Event>)
    ensures ReportTask(task, events).task == task && EntryTells(ReportTask(task, events), events)
  {
    TerminalOfIs(events, task.planTaskId);
  }

  /** A report lists the tasks in order, each with what its events tell. */
  lemma ReportEntry(tasks: seq<Task>, r: RunResult, i: nat)
    requires i < |tasks|
    ensures var d := AsDryRun(tasks, r, false);
      |d.tasks| == |tasks| && d.tasks[i].task == tasks[i] && EntryTells(d.tasks[i], r.cursor.emitted)
  {
    assert AsDryRun(tasks, r, false).tasks[i] == ReportTask(tasks[i], r.cursor.emitted);
    ReportTaskTells(tasks[i], r.cursor.emitted);
  }

  /** `at` are the positions of the tasks that `events` are about, in order. */
  ghost predicate ObservedAt(tasks: seq<Task>, events: seq<Event>, at: seq<nat>) {
    && (forall p, q :: 0 <= p < q < |at| ==> at[p] < at[q])
    && (forall p :: 0 <= p < |at| ==> at[p] < |tasks|)
    && (forall i :: 0 <= i < |tasks| ==> (i in at <==> exists k :: 0 <= k < |events| && events[k].taskId == tasks[i].planTaskId))
  }

  lemma {:induction false} ObservedInOrder(tasks: seq<Task>, events: seq<Event>) returns (at: seq<nat>)
    ensures ObservedAt(tasks, events, at) && |at| == |ObservedTasks(tasks, events)|
    ensures forall p :: 0 <= p < |at| ==> ObservedTasks(tasks, events)[p] == tasks[at[p]]
  {
    at := [];
    if tasks != [] {
      var n := |tasks| - 1;
      at := ObservedInOrder(tasks[..n], events);
      assert forall i :: 0 <= i < n ==> tasks[..n][i] == tasks[i];
      if Observed(events, tasks[n].planTaskId) { at := at + [n]; }
    }
  }

  /** An observed-only report lists, in order, the tasks of the plan that its events are about. */
  lemma ObservedReport(tasks: seq<Task>, r: RunResult) returns (at: seq<nat>)
    ensures var d := AsDryRun(tasks, r, true);
      && ObservedAt(tasks, r.cursor.emitted, at) && |at| == |d.tasks|
      && forall p :: 0 <= p < |at| ==> d.tasks[p].task == tasks[at[p]] && EntryTells(d.tasks[p], r.cursor.emitted)
  {
    at := ObservedInOrder(tasks, r.cursor.emitted);
    var d := AsDryRun(tasks, r, true);
    forall p | 0 <= p < |at| ensures d.tasks[p].task == tasks[at[p]] && EntryTells(d.tasks[p], r.cursor.emitted) {
      assert d.tasks[p] == ReportTask(tasks[at[p]], r.cursor.emitted);
      ReportTaskTells(tasks[at[p]], r.cursor.emitted);
    }
  }

  /** Position `at[p]` holds evidence `p`, and no other position holds any. */
  ghost predicate EvidenceAt(events: seq<Event>, evidence: seq<ArtifactRef>, at: seq<nat>) {
    && |at| == |evidence| && (forall p, q :: 0 <= p < q < |at| ==> at[p] < at[q])
    && (forall p :: 0 <= p < |at| ==> at[p] < |events| && events[at[p]].step.Evidence() == Some(evidence[p]))
    && (forall k :: 0 <= k < |events| && events[k].step.Evidence().Some? ==> k in at)
  }

  lemma WithEvidence(events: seq<Event>, e: Event, evidence: seq<ArtifactRef>, at: seq<nat>)
    requires EvidenceAt(events, evidence, at) && e.step.Evidence().Some?
    ensures EvidenceAt(events + [e], evidence + [e.step.Evidence().value], at + [|events|])
  {
    forall k | 0 <= k < |events + [e]| && (events + [e])[k].step.Evidence().Some? ensures k in at + [|events|] {
      if k < |events| { assert k in at; }
    }
  }

  lemma WithoutEvidence(events: seq<Event>, e: Event, evidence: seq<ArtifactRef>, at: seq<nat>)
    requires EvidenceAt(events, evidence, at) && e.step.Evidence() == None
    ensures EvidenceAt(events + [e], evidence, at)
  {
  }

  lemma {:induction false} EvidenceListed(events: seq<Event>) returns (at: seq<nat>)
    ensures EvidenceAt(events, AllEvidence(events), at)
  {
    at := [];
    if events != [] {
      var n := |events| - 1;
      at := EvidenceListed(events[..n]);
      assert events == events[..n] + [events[n]];
      var before := AllEvidence(events[..n]);
      if events[n].step.Evidence().Some? {
        WithEvidence(events[..n], events[n], before, at);
        at := at + [n];
      } else {
        WithoutEvidence(events[..n], events[n], before, at);
        assert before + [] == before;
      }
    }
  }

  /** The report's own verdict, and its lists. */
  lemma ReportVerdict(tasks: seq<Task>, r: RunResult, observedOnly: bool) returns (at: seq<nat>)
    ensures var d := AsDryRun(tasks, r, observedOnly);
      && (d.succeeded <==> r.outcome == Complete && forall i :: 0 <= i < |d.tasks| ==> d.tasks[i].succeeded)
      && d.events == r.cursor.emitted && EvidenceAt(d.events, d.evidence, at)
  {
    at := EvidenceListed(r.cursor.emitted);
  }
}
