/** The two merges that fold a repair into the run's results, and why they stay in step. */
module RepairMerge {
  import opened Prelude
  import opened Plan
  import opened Journal
  import opened RealExecution
  import opened DryRun
  import opened RunReport

  datatype PerTask = PerTask(planTaskId: string, ok: bool, evidence: Option<ArtifactRef>)

  /** What the review loop keeps of a run; `diffArtifact` is not part of this model. */
  datatype ExecutionRunResult = ExecutionRunResult(attempt: nat, completed: bool, perTask: seq<PerTask>)

  // ---------- executionRunResultFromDry ----------

  function ProjectTask(t: TaskResult): PerTask {
    PerTask(t.task.planTaskId, t.succeeded, if t.evidence == [] then None else Some(t.evidence[0]))
  }

  function Project(tasks: seq<TaskResult>): seq<PerTask> {
    seq(|tasks|, i requires 0 <= i < |tasks| => ProjectTask(tasks[i]))
  }

  function FromDry<E>(r: DryRunResult<E>, attempt: nat): ExecutionRunResult {
    ExecutionRunResult(attempt, r.succeeded, Project(r.tasks))
  }

  // ---------- mergeRepairExecutionResult ----------

  /** `new Map(list)`: the last entry of an id wins. */
  function LastOf(tasks: seq<PerTask>, id: string): Option<PerTask> {
    if tasks == [] then None
    else if tasks[|tasks| - 1].planTaskId == id then Some(tasks[|tasks| - 1])
    else LastOf(tasks[..|tasks| - 1], id)
  }

  function ReplaceOk(t: PerTask, repaired: seq<PerTask>, ids: set<string>): PerTask {
    if t.planTaskId in ids && LastOf(repaired, t.planTaskId).Some? then LastOf(repaired, t.planTaskId).value else t
  }

  function NewOk(previous: seq<PerTask>, repaired: seq<PerTask>, ids: set<string>): seq<PerTask> {
    if repaired == [] then []
    else
      var t := repaired[|repaired| - 1];
      var before := NewOk(previous, repaired[..|repaired| - 1], ids);
      if t.planTaskId in ids && LastOf(previous, t.planTaskId).None? then before + [t] else before
  }

  function MergedOk(previous: seq<PerTask>, repaired: seq<PerTask>, ids: set<string>): seq<PerTask> {
    seq(|previous|, i requires 0 <= i < |previous| => ReplaceOk(previous[i], repaired, ids)) + NewOk(previous, repaired, ids)
  }

  method MergeRepairExecutionResult(previous: ExecutionRunResult, repaired: ExecutionRunResult, repairedTaskIds: seq<string>, attempt: nat)
    returns (r: ExecutionRunResult)
    ensures r.perTask == MergedOk(previous.perTask, repaired.perTask, set id | id in repairedTaskIds)
    ensures r.completed <==> forall i :: 0 <= i < |r.perTask| ==> r.perTask[i].ok
    ensures r.attempt == attempt
  {
    var ids := set id | id in repairedTaskIds;
    var perTask := seq(|previous.perTask|, i requires 0 <= i < |previous.perTask| => ReplaceOk(previous.perTask[i], repaired.perTask, ids));
    ghost var replaced := perTask;
    for i := 0 to |repaired.perTask|
      invariant perTask == replaced + NewOk(previous.perTask, repaired.perTask[..i], ids)
    {
      assert repaired.perTask[..i + 1][..i] == repaired.perTask[..i];
      var task := repaired.perTask[i];
      if task.planTaskId in ids && LastOf(previous.perTask, task.planTaskId).None? {
        perTask := perTask + [task];
      }
    }
    assert repaired.perTask[..|repaired.perTask|] == repaired.perTask;
    r := ExecutionRunResult(attempt, forall i :: 0 <= i < |perTask| ==> perTask[i].ok, perTask);
  }

  // ---------- mergeRepairDryRunResult ----------

  function LastResult(tasks: seq<TaskResult>, id: string): (r: Option<TaskResult>)
    ensures r.Some? ==> r.value.task.planTaskId == id
  {
    if tasks == [] then None
    else if tasks[|tasks| - 1].task.planTaskId == id then Some(tasks[|tasks| - 1])
    else LastResult(tasks[..|tasks| - 1], id)
  }

  function ReplaceResult(t: TaskResult, repaired: seq<TaskResult>, ids: set<string>): (r: TaskResult)
    ensures r.task.planTaskId == t.task.planTaskId
  {
    var id := t.task.planTaskId;
    if id in ids && LastResult(repaired, id).Some? then LastResult(repaired, id).value else t
  }

  function NewResults(previous: seq<TaskResult>, repaired: seq<TaskResult>, ids: set<string>): seq<TaskResult> {
    if repaired == [] then []
    else
      var t := repaired[|repaired| - 1];
      var before := NewResults(previous, repaired[..|repaired| - 1], ids);
      if t.task.planTaskId in ids && LastResult(previous, t.task.planTaskId).None? then before + [t] else before
  }

  function MergedResults(previous: seq<TaskResult>, repaired: seq<TaskResult>, ids: set<string>): seq<TaskResult> {
    seq(|previous|, i requires 0 <= i < |previous| => ReplaceResult(previous[i], repaired, ids)) + NewResults(previous, repaired, ids)
  }

  method MergeRepairDryRunResult(previous: DryRunResult<Event>, repaired: DryRunResult<Event>, repairedTaskIds: seq<string>)
    returns (r: DryRunResult<Event>)
    ensures r.tasks == MergedResults(previous.tasks, repaired.tasks, set id | id in repairedTaskIds)
    ensures r.succeeded <==> AllSucceeded(r.tasks)
    ensures r.events == previous.events + repaired.events && r.evidence == previous.evidence + repaired.evidence
  {
    var ids := set id | id in repairedTaskIds;
    var tasks := seq(|previous.tasks|, i requires 0 <= i < |previous.tasks| => ReplaceResult(previous.tasks[i], repaired.tasks, ids));
    ghost var replaced := tasks;
    for i := 0 to |repaired.tasks|
      invariant tasks == replaced + NewResults(previous.tasks, repaired.tasks[..i], ids)
    {
      assert repaired.tasks[..i + 1][..i] == repaired.tasks[..i];
      var task := repaired.tasks[i];
      if task.task.planTaskId in ids && LastResult(previous.tasks, task.task.planTaskId).None? {
        tasks := tasks + [task];
      }
    }
    assert repaired.tasks[..|repaired.tasks|] == repaired.tasks;
    r := DryRunResult(AllSucceeded(tasks), tasks, previous.events + repaired.events, previous.evidence + repaired.evidence);
  }

  // ---------- the merges commute with the projection ----------

  lemma {:induction false} LastCommutes(tasks: seq<TaskResult>, id: string)
    ensures LastOf(Project(tasks), id) ==
      match LastResult(tasks, id)
      case None => None
      case Some(t) => Some(ProjectTask(t))
  {
    if tasks != [] {
      LastCommutes(tasks[..|tasks| - 1], id);
      assert Project(tasks)[..|tasks| - 1] == Project(tasks[..|tasks| - 1]);
    }
  }

  lemma {:induction false} NewCommutes(previous: seq<TaskResult>, repaired: seq<TaskResult>, ids: set<string>)
    ensures NewOk(Project(previous), Project(repaired), ids) == Project(NewResults(previous, repaired, ids))
  {
    if repaired != [] {
      var n := |repaired| - 1;
      NewCommutes(previous, repaired[..n], ids);
      LastCommutes(previous, repaired[n].task.planTaskId);
      assert Project(repaired)[..n] == Project(repaired[..n]);
    }
  }

  /** Merging then projecting is projecting then merging. */
  lemma MergeCommutes(previous: seq<TaskResult>, repaired: seq<TaskResult>, ids: set<string>)
    ensures MergedOk(Project(previous), Project(repaired), ids) == Project(MergedResults(previous, repaired, ids))
  {
    NewCommutes(previous, repaired, ids);
    forall i | 0 <= i < |previous|
      ensures ReplaceOk(Project(previous)[i], Project(repaired), ids) == ProjectTask(ReplaceResult(previous[i], repaired, ids))
    {
      LastCommutes(repaired, previous[i].task.planTaskId);
    }
  }

  // ---------- any number of repairs ----------

  datatype Repair = Repair(repaired: DryRunResult<Event>, taskIds: seq<string>, attempt: nat)

  /** The two results the review loop carries: `currentExecution` and `executionResult`. */
  datatype Carried = Carried(current: ExecutionRunResult, result: DryRunResult<Event>)

  /** The repair loop over its repairs, as `executeRepairTasks` performs it. */
  method ExecuteRepairs(first: DryRunResult<Event>, repairs: seq<Repair>) returns (c: Carried)
    ensures c.current.perTask == Project(c.result.tasks)
    ensures c.current.completed <==> c.result.succeeded
    ensures c.result.tasks == AfterRepairs(first.tasks, repairs)
    ensures c.current.attempt == if repairs == [] then 0 else repairs[|repairs| - 1].attempt
  {
    var result := first;
    var current := FromDry(result, 0);
    for i := 0 to |repairs|
      invariant current.perTask == Project(result.tasks) && (current.completed <==> result.succeeded)
      invariant result.tasks == AfterRepairs(first.tasks, repairs[..i])
      invariant current.attempt == if i == 0 then 0 else repairs[i - 1].attempt
    {
      var repair := repairs[i];
      assert repairs[..i + 1][..i] == repairs[..i];
      MergeCommutes(result.tasks, repair.repaired.tasks, set id | id in repair.taskIds);
      current := MergeRepairExecutionResult(current, FromDry(repair.repaired, repair.attempt), repair.taskIds, repair.attempt);
      result := MergeRepairDryRunResult(result, repair.repaired, repair.taskIds);
      VerdictsAgree(result.tasks);
    }
    assert repairs[..|repairs|] == repairs;
    c := Carried(current, result);
  }

  lemma VerdictsAgree(tasks: seq<TaskResult>)
    ensures (forall i :: 0 <= i < |Project(tasks)| ==> Project(tasks)[i].ok) <==> AllSucceeded(tasks)
  {
    forall i | 0 <= i < |tasks| ensures Project(tasks)[i].ok <==> tasks[i].succeeded {}
  }

  function AfterRepairs(first: seq<TaskResult>, repairs: seq<Repair>): seq<TaskResult> {
    if repairs == [] then first
    else
      var last := repairs[|repairs| - 1];
      MergedResults(AfterRepairs(first, repairs[..|repairs| - 1]), last.repaired.tasks, set id | id in last.taskIds)
  }

  /** Whether repair `k` both targeted the task and observed it. */
  predicate Touches(r: Repair, id: string) { id in r.taskIds && LastResult(r.repaired.tasks, id).Some? }

  /** Each original task's entry comes from the last repair that targeted and observed it, or is the original one. */
  lemma {:induction false} LastRepairWins(first: seq<TaskResult>, repairs: seq<Repair>, i: nat)
    requires i < |first|
    ensures var after, id := AfterRepairs(first, repairs), first[i].task.planTaskId;
      && i < |after| && after[i].task.planTaskId == id
      && (after[i] == first[i] || exists k :: 0 <= k < |repairs| && Touches(repairs[k], id))
      && (forall k :: 0 <= k < |repairs| && Touches(repairs[k], id)
            && (forall m :: k < m < |repairs| ==> !Touches(repairs[m], id))
            ==> after[i] == LastResult(repairs[k].repaired.tasks, id).value)
  {
    if repairs != [] {
      var n := |repairs| - 1;
      var id := first[i].task.planTaskId;
      LastRepairWins(first, repairs[..n], i);
      var before := AfterRepairs(first, repairs[..n]);
      assert AfterRepairs(first, repairs)[i] == ReplaceResult(before[i], repairs[n].repaired.tasks, set id | id in repairs[n].taskIds);
      if !Touches(repairs[n], id) {
        assert forall k :: 0 <= k < n ==> repairs[..n][k] == repairs[k];
        if before[i] != first[i] {
          var k :| 0 <= k < n && Touches(repairs[..n][k], id);
          assert Touches(repairs[k], id);
        }
      }
    }
  }

  // ---------- repairs as they are made ----------

  /** A repair session over the plan, the ids it targets and its attempt number. */
  datatype RepairRun = RepairRun(result: RunResult, taskIds: seq<string>, attempt: nat)

  /** Each repair contributes the observed-only report of its session. */
  function AsRepairs(tasks: seq<Task>, runs: seq<RepairRun>): seq<Repair> {
    seq(|runs|, k requires 0 <= k < |runs| => Repair(AsDryRun(tasks, runs[k].result, true), runs[k].taskIds, runs[k].attempt))
  }

  /** The repair targeted the task and its session has an event about it. */
  predicate Repairs(run: RepairRun, id: string) { id in run.taskIds && Observed(run.result.cursor.emitted, id) }

  lemma {:induction false} LastResultIn(results: seq<TaskResult>, id: string)
    ensures LastResult(results, id).Some? <==> exists i :: 0 <= i < |results| && results[i].task.planTaskId == id
    ensures LastResult(results, id).Some? ==> exists i :: 0 <= i < |results| && results[i] == LastResult(results, id).value
  {
    if results != [] {
      var n := |results| - 1;
      LastResultIn(results[..n], id);
      if results[n].task.planTaskId != id && LastResult(results[..n], id).Some? {
        var i :| 0 <= i < n && results[..n][i] == LastResult(results[..n], id).value;
        assert results[i] == results[..n][i];
      }
    }
  }

  /** What a repair session contributes for a task of the plan. */
  lemma ObservedResult(tasks: seq<Task>, r: RunResult, id: string)
    requires id in Ids(tasks)
    ensures var last := LastResult(AsDryRun(tasks, r, true).tasks, id);
      && (last.Some? <==> Observed(r.cursor.emitted, id))
      && (last.Some? ==> last.value.task.planTaskId == id && (last.value.succeeded <==> Reported(r.cursor.emitted, id)))
  {
    var k :| 0 <= k < |tasks| && Ids(tasks)[k] == id;
    LastResultIn(AsDryRun(tasks, r, true).tasks, id);
    ObservedEntries(tasks, r, tasks[k]);
  }

  /** After any repairs, a task of the plan stands as the last repair that targeted it and
      observed it in its events reports it; if there was none, its entry is the original one. */
  lemma LastObservedRepairWins(first: seq<TaskResult>, tasks: seq<Task>, runs: seq<RepairRun>, i: nat)
    requires i < |first| && first[i].task.planTaskId in Ids(tasks)
    ensures var after, id := AfterRepairs(first, AsRepairs(tasks, runs)), first[i].task.planTaskId;
      && i < |after| && after[i].task.planTaskId == id
      && ((forall k :: 0 <= k < |runs| ==> !Repairs(runs[k], id)) ==> after[i] == first[i])
      && (forall k :: 0 <= k < |runs| && Repairs(runs[k], id) && (forall m :: k < m < |runs| ==> !Repairs(runs[m], id))
            ==> (after[i].succeeded <==> Reported(runs[k].result.cursor.emitted, id)))
  {
    var repairs, id := AsRepairs(tasks, runs), first[i].task.planTaskId;
    LastRepairWins(first, repairs, i);
    forall k | 0 <= k < |runs| ensures Touches(repairs[k], id) <==> Repairs(runs[k], id) {
      ObservedResult(tasks, runs[k].result, id);
    }
    forall k | 0 <= k < |runs| && Repairs(runs[k], id) && (forall m :: k < m < |runs| ==> !Repairs(runs[m], id))
      ensures AfterRepairs(first, repairs)[i].succeeded <==> Reported(runs[k].result.cursor.emitted, id)
    {
      ObservedResult(tasks, runs[k].result, id);
      assert Touches(repairs[k], id);
    }
  }

  // ---------- what a merge adds, and what a projection keeps ----------

  /** Behind the original entries stand, in their order, exactly the repaired ones that were
      targeted and that the original list has no entry for. */
  lemma AppendedMeaning(previous: seq<TaskResult>, repaired: seq<TaskResult>, ids: set<string>)
    ensures var merged := MergedResults(previous, repaired, ids);
      && |merged| >= |previous|
      && merged[|previous|..] == Unlisted(previous, repaired, ids)
  {
    NewAreUnlisted(previous, repaired, ids);
    assert MergedResults(previous, repaired, ids)[|previous|..] == NewResults(previous, repaired, ids);
  }

  /** The last entry of a task in a list. */
  ghost predicate LastEntry(tasks: seq<TaskResult>, id: string, k: nat) {
    k < |tasks| && tasks[k].task.planTaskId == id && forall m :: k < m < |tasks| ==> tasks[m].task.planTaskId != id
  }

  lemma {:induction false} LastResultIs(tasks: seq<TaskResult>, id: string, k: nat)
    requires LastEntry(tasks, id, k)
    ensures LastResult(tasks, id) == Some(tasks[k])
  {
    var n := |tasks| - 1;
    if k < n {
      assert tasks[n].task.planTaskId != id && LastEntry(tasks[..n], id, k);
      LastResultIs(tasks[..n], id, k);
    }
  }

  /** In place of each original entry stands the last repaired entry of its task, if that was targeted
      and has one; else it stays. */
  lemma ReplacedMeaning(previous: seq<TaskResult>, repaired: seq<TaskResult>, ids: set<string>, i: nat)
    requires i < |previous|
    ensures var merged, id := MergedResults(previous, repaired, ids), previous[i].task.planTaskId;
      && i < |merged|
      && (id !in ids || !Lists(repaired, id) ==> merged[i] == previous[i])
      && (id in ids ==> forall k: nat :: LastEntry(repaired, id, k) ==> merged[i] == repaired[k])
  {
    var id := previous[i].task.planTaskId;
    assert MergedResults(previous, repaired, ids)[i] == ReplaceResult(previous[i], repaired, ids);
    LastResultIn(repaired, id);
    forall k: nat | LastEntry(repaired, id, k) ensures LastResult(repaired, id) == Some(repaired[k]) { LastResultIs(repaired, id, k); }
  }

  ghost predicate Lists(tasks: seq<TaskResult>, id: string) { exists i :: 0 <= i < |tasks| && tasks[i].task.planTaskId == id }

  ghost function Unlisted(previous: seq<TaskResult>, repaired: seq<TaskResult>, ids: set<string>): seq<TaskResult> {
    if repaired == [] then []
    else
      var id := repaired[0].task.planTaskId;
      (if id in ids && !Lists(previous, id) then [repaired[0]] else []) + Unlisted(previous, repaired[1..], ids)
  }

  lemma {:induction false} UnlistedSnoc(previous: seq<TaskResult>, repaired: seq<TaskResult>, ids: set<string>, t: TaskResult)
    ensures Unlisted(previous, repaired + [t], ids) ==
      Unlisted(previous, repaired, ids) + if t.task.planTaskId in ids && !Lists(previous, t.task.planTaskId) then [t] else []
  {
    if repaired == [] {
      assert [] + [t] == [t] && [t][1..] == [];
    } else {
      assert (repaired + [t])[0] == repaired[0] && (repaired + [t])[1..] == repaired[1..] + [t];
      UnlistedSnoc(previous, repaired[1..], ids, t);
    }
  }

  lemma {:induction false} NewAreUnlisted(previous: seq<TaskResult>, repaired: seq<TaskResult>, ids: set<string>)
    ensures NewResults(previous, repaired, ids) == Unlisted(previous, repaired, ids)
  {
    if repaired != [] {
      var n := |repaired| - 1;
      NewAreUnlisted(previous, repaired[..n], ids);
      UnlistedSnoc(previous, repaired[..n], ids, repaired[n]);
      LastResultIn(previous, repaired[n].task.planTaskId);
      assert repaired == repaired[..n] + [repaired[n]];
    }
  }

  /** The projection keeps the order; per task its id, whether it succeeded and its first evidence. */
  lemma ProjectionMeaning<E>(r: DryRunResult<E>, attempt: nat)
    ensures var p := FromDry(r, attempt);
      && p.attempt == attempt && (p.completed <==> r.succeeded) && |p.perTask| == |r.tasks|
      && forall i :: 0 <= i < |r.tasks| ==>
           && p.perTask[i].planTaskId == r.tasks[i].task.planTaskId && (p.perTask[i].ok <==> r.tasks[i].succeeded)
           && (r.tasks[i].evidence == [] ==> p.perTask[i].evidence == None)
           && (r.tasks[i].evidence != [] ==> p.perTask[i].evidence == Some(r.tasks[i].evidence[0]))
  {
  }
}
