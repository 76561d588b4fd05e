/** The task list handed from planning to execution. */
module Plan {
  import opened Prelude

  datatype Task = Task(planTaskId: string, dependsOn: seq<string>)

  function Ids(tasks: seq<Task>): (ids: seq<string>)
    ensures |ids| == |tasks| && forall i :: 0 <= i < |tasks| ==> ids[i] == tasks[i].planTaskId
  {
    seq(|tasks|, i requires 0 <= i < |tasks| => tasks[i].planTaskId)
  }

  /** Every dependency names a strictly earlier task. */
  ghost predicate TopologicallyOrdered(tasks: seq<Task>) {
    forall i, d :: 0 <= i < |tasks| && d in tasks[i].dependsOn ==> d in Ids(tasks[..i])
  }

  const SYNTHETIC := "task-live-planning-pre-handoff-verification"

  /** Tasks the executor passes without running the adapter. */
  predicate IsSynthetic(id: string) {
    id == SYNTHETIC || SYNTHETIC + "-" <= id
  }
}
