/** The dry-run scheduler: what it reports, and what that means in terms of the dependency graph. */
module DryRun {
  import opened Prelude
  import opened Plan
  import opened Journal

  /** A lifecycle event, as far as scheduling goes. */
  datatype DryStep = DryPending | DryRunning | DryFailed(blockedBy: seq<string>) | DrySucceeded

  datatype DryEvent = DryEvent(taskId: string, step: DryStep)

  datatype TaskResult = TaskResult(task: Task, succeeded: bool, evidence: seq<ArtifactRef>, reason: Option<string>)

  /** A run report; the events are of the reporting executor's own kind. */
  datatype DryRunResult<E> = DryRunResult(succeeded: bool, tasks: seq<TaskResult>, events: seq<E>, evidence: seq<ArtifactRef>)

  function EvidenceFor(id: string, succeeded: bool): ArtifactRef {
    ArtifactRef("execution", if succeeded then "dry-run-task-pass" else "dry-run-task-failure",
                "execution-evidence/" + id + ".json",
                if succeeded then "Dry-run evidence for completed task " + id + "."
                else "Dry-run evidence for failed task " + id + ".")
  }

  // ---------- the scheduler as a function ----------

  /** The scheduler's variables: the latest result of every task id, the events and the evidence. */
  datatype Schedule = Schedule(status: map<string, TaskResult>, events: seq<DryEvent>, evidence: seq<ArtifactRef>)

  predicate HasSucceeded(status: map<string, TaskResult>, id: string) { id in status && status[id].succeeded }

  function FailedDependencies(deps: seq<string>, status: map<string, TaskResult>): seq<string> {
    if deps == [] then []
    else
      var rest := FailedDependencies(deps[..|deps| - 1], status);
      if HasSucceeded(status, deps[|deps| - 1]) then rest else rest + [deps[|deps| - 1]]
  }

  function ScheduleTask(s: Schedule, task: Task, failed: set<string>): Schedule {
    var id := task.planTaskId;
    var blockedBy := FailedDependencies(task.dependsOn, s.status);
    if blockedBy != [] then
      Schedule(s.status[id := TaskResult(task, false, [], Some("dependency-failed"))],
               s.events + [DryEvent(id, DryPending), DryEvent(id, DryFailed(blockedBy))], s.evidence)
    else
      var ok := id !in failed;
      var evidence := EvidenceFor(id, ok);
      Schedule(s.status[id := TaskResult(task, ok, [evidence], if ok then None else Some("Injected dry-run failure."))],
               s.events + [DryEvent(id, DryPending), DryEvent(id, DryRunning), DryEvent(id, if ok then DrySucceeded else DryFailed([]))],
               s.evidence + [evidence])
  }

  function ScheduleAll(tasks: seq<Task>, failed: set<string>): (s: Schedule)
    ensures forall i :: 0 <= i < |tasks| ==> tasks[i].planTaskId in s.status
  {
    if tasks == [] then Schedule(map[], [], [])
    else ScheduleTask(ScheduleAll(tasks[..|tasks| - 1], failed), tasks[|tasks| - 1], failed)
  }

  function ResultsOf(tasks: seq<Task>, status: map<string, TaskResult>): seq<TaskResult>
    requires forall i :: 0 <= i < |tasks| ==> tasks[i].planTaskId in status
  {
    seq(|tasks|, i requires 0 <= i < |tasks| => status[tasks[i].planTaskId])
  }

  predicate AllSucceeded(results: seq<TaskResult>) { forall i :: 0 <= i < |results| ==> results[i].succeeded }

  function DryRunOf(tasks: seq<Task>, failed: set<string>): DryRunResult<DryEvent> {
    var s := ScheduleAll(tasks, failed);
    var results := ResultsOf(tasks, s.status);
    DryRunResult(AllSucceeded(results), results, s.events, s.evidence)
  }

  // ---------- the scheduler itself ----------

  method RunExecutionDryRun(tasks: seq<Task>, failTaskIds: seq<string>) returns (r: DryRunResult<DryEvent>)
    ensures r == DryRunOf(tasks, set id | id in failTaskIds)
  {
    var failedTaskIds := set id | id in failTaskIds;
    var taskStatus: map<string, TaskResult> := map[];
    var events: seq<DryEvent> := [];
    var evidence: seq<ArtifactRef> := [];
    for i := 0 to |tasks|
      invariant Schedule(taskStatus, events, evidence) == ScheduleAll(tasks[..i], failedTaskIds)
    {
      assert tasks[..i + 1][..i] == tasks[..i];
      var result, more := RunDryTask(tasks[i], failedTaskIds, taskStatus);
      taskStatus := taskStatus[tasks[i].planTaskId := result];
      events := events + more;
      evidence := evidence + result.evidence;
    }
    assert tasks[..|tasks|] == tasks;
    var results := ResultsOf(tasks, taskStatus);
    r := DryRunResult(AllSucceeded(results), results, events, evidence);
  }

  /** The loop body: one task's result and events. */
  method RunDryTask(task: Task, failedTaskIds: set<string>, taskStatus: map<string, TaskResult>)
    returns (result: TaskResult, events: seq<DryEvent>)
    ensures forall s: Schedule :: s.status == taskStatus ==>
      ScheduleTask(s, task, failedTaskIds) ==
      Schedule(taskStatus[task.planTaskId := result], s.events + events, s.evidence + result.evidence)
  {
    var id := task.planTaskId;
    events := [DryEvent(id, DryPending)];
    var blockedBy := BlockedBy(task.dependsOn, taskStatus);
    if |blockedBy| > 0 {
      result := TaskResult(task, false, [], Some("dependency-failed"));
      events := events + [DryEvent(id, DryFailed(blockedBy))];
    } else {
      events := events + [DryEvent(id, DryRunning)];
      var ok := id !in failedTaskIds;
      result := TaskResult(task, ok, [EvidenceFor(id, ok)], if ok then None else Some("Injected dry-run failure."));
      events := events + [DryEvent(id, if ok then DrySucceeded else DryFailed([]))];
    }
  }

  method BlockedBy(deps: seq<string>, status: map<string, TaskResult>) returns (blockedBy: seq<string>)
    ensures blockedBy == FailedDependencies(deps, status)
  {
    blockedBy := [];
    for i := 0 to |deps|
      invariant blockedBy == FailedDependencies(deps[..i], status)
    {
      assert deps[..i + 1][..i] == deps[..i];
      if !HasSucceeded(status, deps[i]) { blockedBy := blockedBy + [deps[i]]; }
    }
    assert deps[..|deps|] == deps;
  }

  // ---------- meaning ----------

  /** Some task of the plan named `a` depends on `b`. */
  ghost predicate Edge(tasks: seq<Task>, a: string, b: string) {
    exists i :: 0 <= i < |tasks| && tasks[i].planTaskId == a && b in tasks[i].dependsOn
  }

  /** A chain of dependencies, each id depending on the next. */
  ghost predicate Chain(tasks: seq<Task>, c: seq<string>) {
    c != [] && (|c| > 1 ==> Edge(tasks, c[0], c[1]) && Chain(tasks, c[1..]))
  }

  /** Some task in the reflexive-transitive dependencies of `id` is made to fail. */
  ghost predicate ReachesFailure(tasks: seq<Task>, id: string, failed: set<string>) {
    exists c :: Chain(tasks, c) && c[0] == id && c[|c| - 1] in failed
  }

  lemma NoFailedDependencies(deps: seq<string>, status: map<string, TaskResult>)
    ensures FailedDependencies(deps, status) == [] <==> forall d | d in deps :: HasSucceeded(status, d)
    ensures forall d | d in FailedDependencies(deps, status) :: d in deps && !HasSucceeded(status, d)
  {
  }

  lemma ScheduleOneMore(tasks: seq<Task>, failed: set<string>, k: nat)
    requires 0 < k <= |tasks|
    ensures ScheduleAll(tasks[..k], failed) == ScheduleTask(ScheduleAll(tasks[..k - 1], failed), tasks[k - 1], failed)
  {
    assert tasks[..k][..k - 1] == tasks[..k - 1] && tasks[..k][k - 1] == tasks[k - 1];
  }

  lemma OneMoreKeeps(tasks: seq<Task>, failed: set<string>, k: nat, id: string)
    requires 0 < k <= |tasks| && tasks[k - 1].planTaskId != id && id in ScheduleAll(tasks[..k - 1], failed).status
    ensures id in ScheduleAll(tasks[..k], failed).status
    ensures ScheduleAll(tasks[..k], failed).status[id] == ScheduleAll(tasks[..k - 1], failed).status[id]
  {
    ScheduleOneMore(tasks, failed, k);
    OtherStatusKept(ScheduleAll(tasks[..k - 1], failed), tasks[k - 1], failed, id);
  }

  /** Scheduling later tasks of other ids does not change a result. */
  lemma {:induction false} StatusStable(tasks: seq<Task>, failed: set<string>, i: nat, k: nat)
    requires Distinct(Ids(tasks)) && i < k <= |tasks|
    ensures tasks[i].planTaskId in ScheduleAll(tasks[..k], failed).status
    ensures ScheduleAll(tasks[..k], failed).status[tasks[i].planTaskId]
         == ScheduleAll(tasks[..i + 1], failed).status[tasks[i].planTaskId]
  {
    if i + 1 < k {
      StatusStable(tasks, failed, i, k - 1);
      assert tasks[i].planTaskId != tasks[k - 1].planTaskId by { assert Ids(tasks)[i] != Ids(tasks)[k - 1]; }
      OneMoreKeeps(tasks, failed, k, tasks[i].planTaskId);
    } else {
      assert tasks[..k][i] == tasks[i];
    }
  }

  lemma OtherStatusKept(s: Schedule, task: Task, failed: set<string>, id: string)
    requires id in s.status && id != task.planTaskId
    ensures id in ScheduleTask(s, task, failed).status && ScheduleTask(s, task, failed).status[id] == s.status[id]
  {
  }

  /** Whether task `i` succeeded, from what was known when it was scheduled. */
  lemma ResultAt(tasks: seq<Task>, failed: set<string>, i: nat)
    requires Distinct(Ids(tasks)) && i < |tasks|
    ensures DryRunOf(tasks, failed).tasks[i].succeeded <==>
      && (forall d | d in tasks[i].dependsOn :: HasSucceeded(ScheduleAll(tasks[..i], failed).status, d))
      && tasks[i].planTaskId !in failed
    ensures DryRunOf(tasks, failed).tasks[i].task == tasks[i]
  {
    StatusStable(tasks, failed, i, |tasks|);
    assert tasks[..|tasks|] == tasks;
    assert tasks[..i + 1][..i] == tasks[..i] && tasks[..i + 1][i] == tasks[i];
    NoFailedDependencies(tasks[i].dependsOn, ScheduleAll(tasks[..i], failed).status);
  }

  /** An earlier task's success, as seen when task `i` is scheduled. */
  lemma SeenAt(tasks: seq<Task>, failed: set<string>, k: nat, i: nat)
    requires Distinct(Ids(tasks)) && k < i <= |tasks|
    ensures HasSucceeded(ScheduleAll(tasks[..i], failed).status, tasks[k].planTaskId) <==> DryRunOf(tasks, failed).tasks[k].succeeded
  {
    StatusStable(tasks, failed, k, i);
    StatusStable(tasks, failed, k, |tasks|);
    assert tasks[..|tasks|] == tasks;
  }

  lemma DependencyIndex(tasks: seq<Task>, i: nat, d: string) returns (k: nat)
    requires TopologicallyOrdered(tasks) && i < |tasks| && d in tasks[i].dependsOn
    ensures k < i && tasks[k].planTaskId == d
  {
    assert d in Ids(tasks[..i]);
    k :| 0 <= k < i && Ids(tasks[..i])[k] == d;
  }

  lemma EdgeIndex(tasks: seq<Task>, i: nat, d: string) returns (k: nat)
    requires Distinct(Ids(tasks)) && TopologicallyOrdered(tasks) && i < |tasks| && Edge(tasks, tasks[i].planTaskId, d)
    ensures k < i && tasks[k].planTaskId == d && d in tasks[i].dependsOn
  {
    var m :| 0 <= m < |tasks| && tasks[m].planTaskId == tasks[i].planTaskId && d in tasks[m].dependsOn;
    assert Ids(tasks)[m] == Ids(tasks)[i];
    k := DependencyIndex(tasks, i, d);
  }

  /** An injected failure spreads to everything that depends on it. */
  lemma {:induction false} FailureSpreads(tasks: seq<Task>, failed: set<string>, i: nat, c: seq<string>)
    requires Distinct(Ids(tasks)) && TopologicallyOrdered(tasks) && i < |tasks|
    requires Chain(tasks, c) && c[0] == tasks[i].planTaskId && c[|c| - 1] in failed
    ensures !DryRunOf(tasks, failed).tasks[i].succeeded
    decreases c
  {
    ResultAt(tasks, failed, i);
    if |c| > 1 {
      var k := EdgeIndex(tasks, i, c[1]);
      assert c[1..][|c[1..]| - 1] == c[|c| - 1];
      FailureSpreads(tasks, failed, k, c[1..]);
      SeenAt(tasks, failed, k, i);
    }
  }

  /** Every failed task has an injected failure among its transitive dependencies. */
  lemma {:induction false} FailureHasCause(tasks: seq<Task>, failed: set<string>, i: nat) returns (c: seq<string>)
    requires Distinct(Ids(tasks)) && TopologicallyOrdered(tasks) && i < |tasks|
    requires !DryRunOf(tasks, failed).tasks[i].succeeded
    ensures Chain(tasks, c) && c[0] == tasks[i].planTaskId && c[|c| - 1] in failed
    decreases i
  {
    var id := tasks[i].planTaskId;
    ResultAt(tasks, failed, i);
    if id in failed {
      c := [id];
    } else {
      var d :| d in tasks[i].dependsOn && !HasSucceeded(ScheduleAll(tasks[..i], failed).status, d);
      var k := DependencyIndex(tasks, i, d);
      SeenAt(tasks, failed, k, i);
      var rest := FailureHasCause(tasks, failed, k);
      c := [id] + rest;
      assert Edge(tasks, id, d) && c[1..] == rest && c[1] == d;
    }
  }

  /** A task succeeds in the dry run exactly when nothing it transitively depends on, itself included, is made to fail. */
  lemma DryRunMeaning(tasks: seq<Task>, failed: set<string>, i: nat)
    requires Distinct(Ids(tasks)) && TopologicallyOrdered(tasks) && i < |tasks|
    ensures DryRunOf(tasks, failed).tasks[i].succeeded <==> !ReachesFailure(tasks, tasks[i].planTaskId, failed)
  {
    if !DryRunOf(tasks, failed).tasks[i].succeeded {
      var c := FailureHasCause(tasks, failed, i);
    }
    forall c | Chain(tasks, c) && c[0] == tasks[i].planTaskId && c[|c| - 1] in failed
      ensures !DryRunOf(tasks, failed).tasks[i].succeeded
    {
      FailureSpreads(tasks, failed, i, c);
    }
  }

  // ---------- event shape ----------

  /** The three event sequences a task can emit. */
  predicate TaskShape(id: string, events: seq<DryEvent>) {
    || (|events| == 2 && events[0] == DryEvent(id, DryPending) && events[1].taskId == id
        && events[1].step.DryFailed? && events[1].step.blockedBy != [])
    || events == [DryEvent(id, DryPending), DryEvent(id, DryRunning), DryEvent(id, DryFailed([]))]
    || events == [DryEvent(id, DryPending), DryEvent(id, DryRunning), DryEvent(id, DrySucceeded)]
  }

  /** The events are one such sequence per task, in plan order. */
  ghost predicate Shaped(tasks: seq<Task>, events: seq<DryEvent>) {
    if tasks == [] then events == []
    else exists n | 0 <= n <= |events| ::
      Shaped(tasks[..|tasks| - 1], events[..n]) && TaskShape(tasks[|tasks| - 1].planTaskId, events[n..])
  }

  function RunningCount(events: seq<DryEvent>): nat {
    if events == [] then 0
    else RunningCount(events[..|events| - 1]) + if events[|events| - 1].step.DryRunning? then 1 else 0
  }

  lemma {:induction false} RunningCountConcat(a: seq<DryEvent>, b: seq<DryEvent>)
    ensures RunningCount(a + b) == RunningCount(a) + RunningCount(b)
  {
    if b == [] {
      assert a + b == a;
    } else {
      RunningCountConcat(a, b[..|b| - 1]);
      assert (a + b)[..|a + b| - 1] == a + b[..|b| - 1];
    }
  }

  lemma RunningInTask(id: string, events: seq<DryEvent>)
    requires TaskShape(id, events)
    ensures RunningCount(events) == |events| - 2
  {
    var a, b := [events[0]], events[1..];
    assert events == a + b;
    RunningCountConcat(a, b);
    assert a[..0] == [] && RunningCount(a) == 0;
    if |events| == 2 {
      assert b == [events[1]] && b[..0] == [];
    } else {
      assert b == [events[1]] + [events[2]];
      RunningCountConcat([events[1]], [events[2]]);
      assert [events[1]][..0] == [] && [events[2]][..0] == [];
    }
  }

  /** Every task emits exactly one of the three sequences, and there is one piece of evidence per running event. */
  lemma {:induction false} EventShape(tasks: seq<Task>, failed: set<string>)
    ensures Shaped(tasks, ScheduleAll(tasks, failed).events)
    ensures |ScheduleAll(tasks, failed).evidence| == RunningCount(ScheduleAll(tasks, failed).events)
  {
    var s := ScheduleAll(tasks, failed);
    if tasks != [] {
      var n := |tasks| - 1;
      EventShape(tasks[..n], failed);
      var before := ScheduleAll(tasks[..n], failed);
      var emitted := s.events[|before.events|..];
      assert s.events == before.events + emitted && s.events[..|before.events|] == before.events;
      assert TaskShape(tasks[n].planTaskId, emitted);
      RunningCountConcat(before.events, emitted);
      RunningInTask(tasks[n].planTaskId, emitted);
    }
  }

  // ---------- what a task's entry says ----------

  /** Some dependency of task `i` is an earlier task that did not succeed. */
  ghost predicate Blocked(tasks: seq<Task>, failed: set<string>, i: nat)
    requires i < |tasks|
  {
    exists k :: 0 <= k < i && tasks[k].planTaskId in tasks[i].dependsOn && !DryRunOf(tasks, failed).tasks[k].succeeded
  }

  /** An entry is its task; a blocked one has no evidence and says so; any other has one piece of
      evidence that names its task and whether it passed, and a reason only if it was made to fail. */
  lemma EntryMeaning(tasks: seq<Task>, failed: set<string>, i: nat)
    requires Distinct(Ids(tasks)) && TopologicallyOrdered(tasks) && i < |tasks|
    ensures var e, id := DryRunOf(tasks, failed).tasks[i], tasks[i].planTaskId;
      && e.task == tasks[i]
      && (e.succeeded <==> !Blocked(tasks, failed, i) && id !in failed)
      && (Blocked(tasks, failed, i) ==> e.evidence == [] && e.reason == Some("dependency-failed"))
      && (!Blocked(tasks, failed, i) && id in failed ==>
            && e.reason == Some("Injected dry-run failure.")
            && e.evidence == [ArtifactRef("execution", "dry-run-task-failure", "execution-evidence/" + id + ".json",
                                          "Dry-run evidence for failed task " + id + ".")])
      && (e.succeeded ==>
            && e.reason == None
            && e.evidence == [ArtifactRef("execution", "dry-run-task-pass", "execution-evidence/" + id + ".json",
                                          "Dry-run evidence for completed task " + id + ".")])
  {
    BlockedMeans(tasks, failed, i);
    EntryIs(tasks, failed, i);
  }

  /** The entry as scheduled, and whether its dependencies had all succeeded then. */
  lemma EntryIs(tasks: seq<Task>, failed: set<string>, i: nat)
    requires Distinct(Ids(tasks)) && i < |tasks|
    ensures var before := ScheduleAll(tasks[..i], failed);
      DryRunOf(tasks, failed).tasks[i] == ScheduleTask(before, tasks[i], failed).status[tasks[i].planTaskId]
  {
    assert tasks[..|tasks|] == tasks;
    StatusStable(tasks, failed, i, |tasks|);
    ScheduleOneMore(tasks, failed, i + 1);
  }

  lemma BlockedMeans(tasks: seq<Task>, failed: set<string>, i: nat)
    requires Distinct(Ids(tasks)) && TopologicallyOrdered(tasks) && i < |tasks|
    ensures Blocked(tasks, failed, i) <==> FailedDependencies(tasks[i].dependsOn, ScheduleAll(tasks[..i], failed).status) != []
  {
    var deps, status := tasks[i].dependsOn, ScheduleAll(tasks[..i], failed).status;
    NoFailedDependencies(deps, status);
    if d :| d in deps && !HasSucceeded(status, d) {
      var k := DependencyIndex(tasks, i, d);
      SeenAt(tasks, failed, k, i);
    }
    if k :| 0 <= k < i && tasks[k].planTaskId in deps && !DryRunOf(tasks, failed).tasks[k].succeeded {
      SeenAt(tasks, failed, k, i);
    }
  }

  /** The blocking list of a blocked task's event: its unmet dependencies, in order. */
  lemma {:induction false} UnmetInOrder(deps: seq<string>, status: map<string, TaskResult>)
    ensures FailedDependencies(deps, status) == Unmet(deps, status)
  {
    if deps != [] {
      var n := |deps| - 1;
      UnmetInOrder(deps[..n], status);
      UnmetSnoc(deps[..n], status, deps[n]);
      assert deps == deps[..n] + [deps[n]];
    }
  }

  function Unmet(deps: seq<string>, status: map<string, TaskResult>): seq<string> {
    if deps == [] then []
    else (if deps[0] in status && status[deps[0]].succeeded then [] else [deps[0]]) + Unmet(deps[1..], status)
  }

  lemma {:induction false} UnmetSnoc(deps: seq<string>, status: map<string, TaskResult>, d: string)
    ensures Unmet(deps + [d], status) == Unmet(deps, status) + if d in status && status[d].succeeded then [] else [d]
  {
    if deps == [] {
      assert [] + [d] == [d] && [d][1..] == [];
    } else {
      assert (deps + [d])[0] == deps[0] && (deps + [d])[1..] == deps[1..] + [d];
      UnmetSnoc(deps[1..], status, d);
    }
  }

  /** A task's events: pending; then failed, naming its unmet dependencies, if it has any, or else
      running and whether it was made to fail. */
  lemma TaskEventsMeaning(s: Schedule, task: Task, failed: set<string>)
    ensures var id, unmet := task.planTaskId, Unmet(task.dependsOn, s.status);
      ScheduleTask(s, task, failed).events == s.events +
        if unmet != [] then [DryEvent(id, DryPending), DryEvent(id, DryFailed(unmet))]
        else [DryEvent(id, DryPending), DryEvent(id, DryRunning), DryEvent(id, if id in failed then DryFailed([]) else DrySucceeded)]
  {
    UnmetInOrder(task.dependsOn, s.status);
  }
}
