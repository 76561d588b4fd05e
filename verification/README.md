# Verified model of the factory control plane

This project models the parts of the software factory whose correctness is not visible from
any single function, and proves what they promise. It covers four areas.

**The durable execution log.** `ExecutionLog.dfy` defines the history of a run directory (every
journal append, snapshot replacement, adapter execution and change-set application, in order) and
the discipline each step obeys. `RealExecution.dfy` holds the executor twice: as a class that
updates its fields and its run directory step by step, and as a function from the journal found on
disk to the whole session; the class is proved equal to the function. `CrashSafety.dfy` cuts
sessions short after any number of steps, restarts them over what is left, and proves what holds of
every history that can arise; `OncePerTask.dfy` follows one task through such a history, whatever
the others do; `Bookkeeping.dfy` has the numbering and the snapshot file; `TornJournal.dfy` lets
every crash also leave any part of the line it was appending. `SessionMeaning.dfy` reads a session's
events, calls and outcome off the answers it got. `Journal.dfy` has the snapshot reduction and orphan
replay. Beside these stand the dry-run scheduler and its meaning over the dependency graph
(`DryRun.dfy`), the report built from a real run (`RunReport.dfy`), the two repair merges
(`RepairMerge.dfy`) and the plan normaliser (`PlanNormalizer.dfy`).

**JSON text.** `Json.dfy` is the printer and, as a pushdown automaton over characters, the parser
of RFC 8259 (sections 2 to 9); `RecordFile.dfy` and `JournalText.dfy` build the journal file on it;
`Scanner.dfy` has the two independently written brace scanners; `Lineage.dfy` the canonical printer.

**Evaluation arithmetic.** `Evaluation.dfy` (rubric validation, confidence, consensus, over exact
reals) and `Ontology.dfy` (similarity in integer thousandths, with both roundings).

**Canonical order and bounded windows.** `FieldPathOrder.dfy` and `Clarification.dfy` (question
dedupe and order on arbitrary candidates), `GeneratedQuestions.dfy` (the candidates the generator
builds), `CiCapture.dfy` (CI verdict, poll generator, capture driver, its two files).

The outside world (adapter results, abort signals, whether patches applied, HTTP answers, clocks)
enters as an oracle: the theorems hold for every sequence of answers. A crash is a cut of the list
of durable steps at any point; at text level it is a cut of the journal at any character.

## What turned out not to hold

Each of these is proved, with the exact condition under which the expected property does hold.

- **A torn journal is never repaired.** The writer reopens the journal for appending and does not
  truncate it (`apps/factory-cli/src/journal-writer.ts:18`). `JournalText.AppendAfterCut`: after a
  cut, appending anything leaves a journal that reads back if and only if the cut fell on a line
  boundary. Off a boundary the first new event completes the cut line into one that is not JSON, and
  every later read throws; `JournalText.AppendAfterWholeObject` is the smallest case, a cut right
  after a whole object.
- **An event that was read can vanish.** `TornJournal.ReadEventVanishes`: a crash after an event's
  whole object keeps it; a later crash inside the next append turns both into one torn line, which is
  dropped. `TornJournal.TornLifeRefines` shows that this does no harm to what is executed: every
  lifetime with torn appends did what a lifetime cut between steps does, so at-most-once holds for
  it too (`TornJournal.TornAtMostOnce`), and `TornJournal.ReadsOnIff` says when the file stops reading.
- **A resumed session can leave the snapshot behind the journal.** Closing an orphan writes no
  snapshot. `Bookkeeping.SnapshotLevelIff`: a session over any history ends with its snapshot level
  if and only if it had a task left to run, or appended nothing and the snapshot was level before.
  `Bookkeeping.StaleSnapshotReached` is a "complete" session over a stale file.
- **A resumed run reports earlier successes as failures.** `realExecutionAsDryRunResult` looks only
  at the session's own events. `RunReport.ReportAgreesIffNothingSucceededBefore`: its report agrees
  with the journal if and only if no task had succeeded before the session.
- **"complete" on a resumed run does not mean that all tasks succeeded.**
  `RunReport.CompleteMeansSucceeded`: it does if and only if the journal found at the start shows no
  task of the plan as finished without success or as left running.
  `RunReport.ResumedRunMisreports` reaches both failures by two sessions over one directory.
- **A model-chosen id can skip the adapter.** `PlanNormalizer.SyntheticExactly`: besides the inserted
  verification task, the executor passes without running exactly the tasks whose raw id already has
  the reserved form. `PlanNormalizer.ImplementationTakenForSynthetic` is an instance.
- **At-most-once depends on the plan.** The execution validator accepts repeated ids. Planning
  admission rejects them upstream (`packages/planning/src/index.ts:5427-5447`), so such a plan can
  reach `prepareExecutionRun` and `runRealExecution` only as interfaces called with other plans.
  `OncePerTask.AtMostOnceIff`: every history over a plan runs a task at most once if and only if the
  task is synthetic or the plan does not name it twice; other ids may repeat.
- **A similarity of 1 does not always mean agreement.** `Ontology.PerfectMeansAgreementIff`: it does
  if and only if fewer than 400 names are involved; from 400 on, one changed description can hide.
- **The question helpers alone are order-dependent on some paths; the generator is not.** A segment
  that reads 1000 has the rank of an unknown name, so "1000" and "0000001000" sort as equal.
  `Clarification.OrderFreeOverPathsIff`: for a set of paths, dedupe and sort are order free for all
  candidates about them if and only if no two of the paths differ only in this way. The generator
  writes indices without leading zeros, so it never builds such a pair, and
  `GeneratedQuestions.GeneratedQuestionsCanonical` holds for its candidates outright.

## Model

| member | source | states |
|---|---|---|
| Json.ParsePrint | packages/execution/src/journal.ts:16-19 | parsing what was printed gives the value back, for every well-formed value |
| Json.PrintInjective | packages/execution/src/journal.ts:16-19 | two values never print alike |
| Json.NoProperPrefixParses | packages/execution/src/journal.ts:33-49 | no proper prefix of a printed object is JSON, so a torn line cannot be mistaken for a shorter event |
| Json.PrefixStaysOpen | packages/execution/src/journal.ts:33-49 | after any proper, non-empty prefix of a printed object the reader is still inside that object |
| Json.TornThenAppendedIsNotJson | apps/factory-cli/src/journal-writer.ts:18-30 | a cut or whole object followed on the same line by another printed object is never JSON |
| Json.ParsePadded | packages/execution/src/journal.ts:33-40 | white space around a printed value does not change what is parsed |
| Json.ShortEscapes | packages/execution/src/journal.ts:39-40 | a backslash and one of eight characters read as the character that stands for, and before anything else but `u` they are refused (RFC 8259, section 7) |
| Json.HexEscapes | packages/execution/src/journal.ts:39-40 | after `\u`, four hexadecimal digits in either case read as the character they number; halves of a surrogate pair are refused |
| JournalRecord.EventJsonValid | packages/execution/src/journal.ts:16-19 | an event's JSON object has distinct member names and well-formed values |
| JournalRecord.EventJsonInjective | packages/execution/src/journal.ts:16-19 | the JSON object determines the event, for both member orders the writers use |
| JournalRecord.CommonMembers | apps/factory-cli/src/run-real-execution.ts:86-94 | every event's object holds version "1.0.0", its run, task, time, kind, attempt and number under those names |
| JournalRecord.KindNames | packages/execution/src/journal-types.ts:6-12 | the name of each of the six kinds |
| JournalRecord.DetailMembers | apps/factory-cli/src/run-real-execution.ts:127-260 | a failure also holds its reason, and a cancellation its cause, in the words the log uses; an orphan's failure its retry reason |
| JournalRecord.EvidenceMember | packages/execution/src/journal-types.ts:27-40 | an event with evidence holds its stage, kind, uri and description |
| JournalRecord.MemberCount | apps/factory-cli/src/run-real-execution.ts:86-94 | the names are distinct and there are no other members |
| RecordFile.LocateCut | packages/execution/src/journal.ts:26-28 | any character position of a line file is a number of whole lines plus a remainder inside the next one |
| RecordFile.ReadMeaning | packages/execution/src/journal.ts:21-60 | any text: reading throws if and only if a line other than an unterminated last one is neither blank nor JSON, and names exactly those; otherwise it gives the parsed lines in order, and reports a dropped one exactly when the unterminated last line is not JSON |
| RecordFile.BlankMeaning | packages/execution/src/journal.ts:34-37 | the lines that are skipped are those of white space only, character by character |
| RecordFile.ReadCut | packages/execution/src/journal.ts:21-60 | a line file cut anywhere reads, without throwing, as its surviving lines; the torn flag is set exactly for a cut strictly inside a line's object |
| RecordFile.ReadCutThenAppended | apps/factory-cli/src/journal-writer.ts:18-30 | what the reader makes of a cut file that was then appended to: everything, or corruption of the cut line |
| JournalText.ParseJournalLines | packages/execution/src/journal.ts:21-60 | the line loop (blank lines skipped, trailing partial dropped, all other errors collected and thrown) computes the reading the theorems are about |
| JournalText.FormatMeaning | packages/execution/src/journal.ts:16-19 | an event is refused exactly when its run, task or time is empty; otherwise its line is its object and one newline at the end |
| JournalText.WrittenIsFileText | apps/factory-cli/src/journal-writer.ts:28-30 | the formatted lines, appended one by one, add up to the file text of the theorems below |
| JournalText.RoundTrip | packages/execution/src/journal.ts:16-60 | the uncut journal reads back as exactly the events written, and other events give another text |
| JournalText.CutJournalParses | packages/execution/src/journal.ts:21-60 | cut at any character, the journal parses to the events whose whole object is present; a partial line is reported exactly when the cut is strictly inside an object |
| JournalText.AppendAfterCut | apps/factory-cli/src/journal-writer.ts:18-30 | after a cut and further appends, the journal reads back if and only if the cut was on a line boundary, and then as the surviving events followed by the new ones |
| JournalText.AppendAfterWholeObject | apps/factory-cli/src/journal-writer.ts:18-30 | cut right after an only event's object, the journal reads as that event, and after any append as corrupt |
| Journal.ReduceJournalToSnapshot | packages/execution/src/snapshot.ts:16-36 | the loop computes the fold of the events |
| Journal.FoldConcat | packages/execution/src/snapshot.ts:24-27 | folding in two parts is folding at once, so a snapshot can be continued |
| Journal.LastRecord | packages/execution/src/snapshot.ts:24-27 | a task's record comes from the last event about it |
| Journal.RecordMeaning | packages/execution/src/snapshot.ts:38-69 | what a record says of the last event about its task: the status of each kind, its attempt, its time, and its evidence |
| Journal.NoRecord | packages/execution/src/snapshot.ts:16-36 | a task no event is about has no record |
| Journal.HighestNumber | packages/execution/src/snapshot.ts:22-27 | a snapshot's `lastEventSeq` is the largest number among its events |
| Journal.ReplayOrphanedTasks | packages/execution/src/orphan-replay.ts:13-43 | the two loops compute the replay, in first-seen task order |
| Journal.ReplayExact | packages/execution/src/orphan-replay.ts:13-43 | for any events: one failure per task whose snapshot status is running and no other, with its attempt and consecutive numbers |
| Journal.ReplayOrder | packages/execution/src/orphan-replay.ts:14-24 | orphans are closed in the order in which their tasks first appear in the journal |
| Journal.PartialReplay | packages/execution/src/orphan-replay.ts:23-40 | after any part of the replay, exactly the tasks closed so far are failed and the rest are as before |
| Journal.ReplaySettles | packages/execution/src/orphan-replay.ts:13-43 | after replay no task is running, orphans are failed with their own attempt, every other record is unchanged |
| Journal.ReplayIdempotent | packages/execution/src/orphan-replay.ts:13-43 | replaying a replayed journal emits nothing |
| Journal.ReplayRestartable | apps/factory-cli/src/run-real-execution.ts:60-70 | a crash after any number of the appends, then a fresh replay, reaches the same status for every task |
| ExecutionLog.SequenceNumbers | apps/factory-cli/src/run-real-execution.ts:86-94 | in a well-formed journal the sequence numbers are exactly 1..n |
| ExecutionLog.RunningIsLast | apps/factory-cli/src/run-real-execution.ts:141-157 | a running task is unique and its event is the journal's last |
| ExecutionLog.TerminalAbsorbs | apps/factory-cli/src/run-real-execution.ts:118-124 | a terminal task has no further event and keeps its status |
| ExecutionLog.AtMostOnce | apps/factory-cli/src/run-real-execution.ts:141-257 | a history that keeps the discipline for one task runs the adapter for it at most once, applies its change set at most once, and only after it ran |
| ExecutionLog.SnapshotConsistent | apps/factory-cli/src/run-real-execution.ts:97-107 | the stored snapshot is the reduction of the events up to its own sequence number; folding the rest onto it gives the whole reduction |
| RealExecution.RealExecutor.EmitEvent | apps/factory-cli/src/run-real-execution.ts:80-108 | append before anything else, then a snapshot when due or terminal: the executor's new state, files included, is that of the emit function |
| RealExecution.RealExecutor.NextSeqOf | apps/factory-cli/src/run-real-execution.ts:541-543 | the loop computes the largest sequence number plus one |
| RealExecution.RealExecutor.RemainingTasks | apps/factory-cli/src/run-real-execution.ts:118-124 | exactly the tasks without a terminal status, in plan order |
| RealExecution.RealExecutor.Open | apps/factory-cli/src/run-real-execution.ts:60-76 | orphans are closed on disk and in memory before any task is selected |
| RealExecution.RealExecutor.RunOne | apps/factory-cli/src/run-real-execution.ts:127-157 | one iteration of the task loop, including the abort check and synthetic tasks |
| RealExecution.RealExecutor.FinishTask | apps/factory-cli/src/run-real-execution.ts:159-260 | execution, the order in which signals and results are examined, application, and the recorded conclusion |
| RealExecution.RealExecutor.Run | apps/factory-cli/src/run-real-execution.ts:58-273 | the executor's final state, files, durable steps and outcome are those of the session function over the journal it found |
| SessionMeaning.TurnMeaning | apps/factory-cli/src/run-real-execution.ts:127-260 | from the answers to a turn alone: its events, the adapter calls it makes, its last event (succeeded if and only if no signal came, there is a change set and every patch applied; failed, timed out or cancelled by signal and reason otherwise), whether the loop goes on, and if not the outcome |
| SessionMeaning.RemainingMeaning | apps/factory-cli/src/run-real-execution.ts:118-124 | the tasks run are exactly those of the plan that the journal shows neither succeeded, failed, timed out nor cancelled, in plan order |
| SessionMeaning.SessionMeaning | apps/factory-cli/src/run-real-execution.ts:58-273 | over any journal: after the orphans' failures, the events, adapter calls and outcome of a session are those of the turns of the tasks left to run |
| SessionMeaning.SuccessMeaning | apps/factory-cli/src/run-real-execution.ts:127-273 | a session is complete if and only if every task left to run goes on; of those tasks, exactly the ones before the first that does not have succeeded |
| CrashSafety.SessionReady | apps/factory-cli/src/run-real-execution.ts:58-273 | over any well-formed history, every step of a whole session keeps the discipline |
| CrashSafety.AtMostOneOrphan | apps/factory-cli/src/run-real-execution.ts:60-70 | over a well-formed journal, opening closes at most one orphan |
| CrashSafety.LifetimeWellFormed | apps/factory-cli/src/run-real-execution.ts:58-273 | every history of sessions cut at any step and restarted keeps the discipline |
| CrashSafety.JournalsReachable | apps/factory-cli/src/run-real-execution.ts:80-265 | every reachable journal is numbered 1..n across all resumes, obeys the status machine, has at most one running task and that last, and nothing after a terminal event |
| CrashSafety.SnapshotLag | apps/factory-cli/src/run-real-execution.ts:93-108 | in a session from an empty journal the snapshot lags by at most two events after each emit, none of them terminal, and by none at the end |
| Bookkeeping.LifetimeKept | apps/factory-cli/src/run-real-execution.ts:86-107 | over any plans, every history numbers each append one above the journal's length and writes only reductions of the journal as snapshots |
| Bookkeeping.NumberingReachable | apps/factory-cli/src/run-real-execution.ts:541-543 | over any plans, every reachable journal is numbered 1..n across all resumes |
| Bookkeeping.SnapshotsReachable | packages/execution/src/snapshot.ts:16-36 | over any plans, in every reachable state the snapshot file equals the reduction of the journal up to its `lastEventSeq`, and the rest folds onto it |
| Bookkeeping.UnsnapshottedIsTail | apps/factory-cli/src/run-real-execution.ts:97-107 | the events a snapshot lags by are exactly those numbered above its `lastEventSeq` |
| Bookkeeping.SnapshotLevelIff | apps/factory-cli/src/run-real-execution.ts:60-70 | after a session over any history the snapshot is level if and only if a task was left to run, or nothing was appended and it was level before |
| Bookkeeping.SessionPunctual | apps/factory-cli/src/run-real-execution.ts:93-108 | after closing orphans, a session over any journal writes a snapshot exactly after each event that ends a task and each that makes the events since the last one reach `snapshotEveryNEvents` |
| Bookkeeping.StaleSnapshotReached | apps/factory-cli/src/run-real-execution.ts:60-70 | a reachable resumed session that is complete and leaves the snapshot without the failure it recorded |
| OncePerTask.SessionTracks | apps/factory-cli/src/run-real-execution.ts:58-273 | over any history that keeps the discipline for a task, so does a session whose plan names it at most once, whatever the other ids do |
| OncePerTask.LifetimeObeys | apps/factory-cli/src/run-real-execution.ts:58-273 | so does every history of sessions cut at any step and restarted |
| OncePerTask.AtMostOnceEver | apps/factory-cli/src/run-real-execution.ts:58-257 | over any such history the adapter runs at most once for every task that no plan names twice; its change set is applied at most once and only after it ran |
| OncePerTask.SyntheticNeverRuns | apps/factory-cli/src/run-real-execution.ts:144-157 | a synthetic task never reaches the adapter in any history, however often plans name it |
| OncePerTask.OncePerOccurrence | packages/execution/src/index.ts:368-400 | when every task succeeds, a non-synthetic id runs once per occurrence in the plan |
| OncePerTask.AtMostOnceIff | packages/execution/src/index.ts:368-400 | for a plan: every history over it runs a task at most once if and only if the task is synthetic or the plan does not name it twice |
| RecordFile.BadLineCorrupts | packages/execution/src/journal.ts:33-57 | a terminated line that does not parse makes every reading throw, whatever follows it |
| TornJournal.TailReads | packages/execution/src/journal.ts:21-60 | whole lines followed by nothing, by a whole object or by torn pieces read as their events, the pieces being reported as a dropped partial line |
| TornJournal.AppendedToTail | apps/factory-cli/src/journal-writer.ts:18-30 | any line appended to an unfinished one, however many torn pieces that holds, makes the file unreadable |
| TornJournal.ReadEventVanishes | apps/factory-cli/src/journal-writer.ts:18-30 | an event read from a last line without its newline is no longer read after a torn append behind it |
| TornJournal.TornLifeRefines | apps/factory-cli/src/run-real-execution.ts:58-273 | every lifetime in which each crash leaves any part of the line it was appending did what a lifetime of the same sessions cut between steps does, and while its file reads it reads as that lifetime's journal |
| TornJournal.ReadsOnIff | apps/factory-cli/src/journal-writer.ts:18-30 | one more boot leaves a readable file readable if and only if the file ended on a line boundary or the boot got no event appended |
| TornJournal.TornAtMostOnce | apps/factory-cli/src/run-real-execution.ts:58-257 | over such lifetimes the adapter runs at most once for every task that no plan names twice, its change set is applied at most once and only after it ran |
| DryRun.RunExecutionDryRun | packages/execution/src/index.ts:621-726 | the scheduler loop computes results, events and evidence of the schedule function |
| DryRun.DryRunMeaning | packages/execution/src/index.ts:621-726 | in an ordered plan with distinct ids a task succeeds if and only if no chain of dependencies leads from it to a task made to fail |
| DryRun.EventShape | packages/execution/src/index.ts:628-708 | each task emits exactly one of the three event sequences, and there is one piece of evidence per running event |
| DryRun.EntryMeaning | packages/execution/src/index.ts:628-738 | a task's entry from its dependencies and the tasks made to fail alone: succeeded or not, its evidence in full, its reason |
| DryRun.TaskEventsMeaning | packages/execution/src/index.ts:635-708 | the events one task adds: pending and failed with exactly its unmet dependencies, in their order; or pending, running and its conclusion |
| RunReport.TaskAfterSession | apps/factory-cli/src/run-real-execution.ts:118-265 | a session leaves a finished task alone; for any other task its own events tell its final record |
| RunReport.ReportAgainstJournal | apps/factory-cli/src/main.ts:1643-1678 | the report says succeeded exactly when the journal shows success now and did not before the session |
| RunReport.ReportAgreesIffNothingSucceededBefore | apps/factory-cli/src/main.ts:1643-1678 | report and journal agree on every task if and only if no task of the plan had succeeded before |
| RunReport.CompleteMeansSucceeded | apps/factory-cli/src/run-real-execution.ts:118-273 | all tasks have succeeded if and only if the outcome is complete and the journal found at the start shows no task of the plan as finished without success or left running |
| RunReport.ResumedRunMisreports | apps/factory-cli/src/main.ts:1643-1678 | a reachable resumed run that is complete although a task has not succeeded, and reports an earlier success as failed |
| RunReport.ObservedEntries | apps/factory-cli/src/main.ts:1654-1667 | an observed-only report has an entry for a task if and only if the plan has the task and the session has an event about it; the entry is that session's verdict |
| RunReport.ReportEntry | apps/factory-cli/src/main.ts:1643-1678 | an entry is its task, as the last terminal event of the session about it tells: success, evidence and reason; without one it is not succeeded |
| RunReport.ObservedReport | apps/factory-cli/src/main.ts:1654-1667 | an observed-only report lists, in plan order, exactly the tasks its events are about, each with what they tell |
| RunReport.ReportVerdict | apps/factory-cli/src/main.ts:1643-1678 | the report succeeds if and only if the outcome is complete and every entry succeeded; its events are the session's and its evidence theirs, in order |
| RunReport.FreshReport | apps/factory-cli/src/main.ts:1643-1678 | from an empty journal, exactly the tasks before the first failing one are reported succeeded, and the outcome is complete exactly when none fails |
| RunReport.RealRefinesDry | apps/factory-cli/src/main.ts:1643-1678 | from an empty journal, every task reported succeeded succeeds in the dry run failing the same tasks, and the verdicts are equal |
| RepairMerge.MergeRepairExecutionResult | apps/factory-cli/src/main.ts:1705-1730 | replaced, kept and appended entries, and completed exactly when every entry is ok |
| RepairMerge.MergeRepairDryRunResult | apps/factory-cli/src/main.ts:1732-1757 | replaced, kept and appended entries, the concatenated events and evidence, and succeeded exactly when every task did |
| RepairMerge.ReplacedMeaning | apps/factory-cli/src/main.ts:1737-1742 | in place of each original entry stands the last repaired entry of its task, if that is targeted and has one; else it stays |
| RepairMerge.AppendedMeaning | apps/factory-cli/src/main.ts:1718-1724 | appended are exactly the targeted repaired entries whose id the previous list lacks, in their order |
| RepairMerge.ProjectionMeaning | apps/factory-cli/src/main.ts:1684-1703 | the projection keeps each task's id and success and the first piece of its evidence, if there is any |
| RepairMerge.MergeCommutes | apps/factory-cli/src/main.ts:1684-1757 | merging then projecting is projecting then merging |
| RepairMerge.ExecuteRepairs | apps/factory-cli/src/main.ts:914-926 | after any number of repairs the two carried results have the same per-task list and the same verdict |
| RepairMerge.LastRepairWins | apps/factory-cli/src/main.ts:1712-1716 | for arbitrary repaired lists, each task's entry is that of the last repair that targeted it and lists it, else the original |
| RepairMerge.LastObservedRepairWins | apps/factory-cli/src/main.ts:914-926 | with the reports the repair loop makes, a task of the plan stands as the last repair that targeted it and has an event about it reports it, else as originally |
| PlanNormalizer.Pigeonhole | apps/factory-cli/src/main.ts:3058-3068 | the candidates tried are distinct, so at most as many as there are ids can be taken: the search ends |
| PlanNormalizer.NextLivePlanningTaskId | apps/factory-cli/src/main.ts:3058-3068 | the unbounded search ends and computes the id of the next row |
| PlanNormalizer.NextIdIsFirst | apps/factory-cli/src/main.ts:3058-3068 | the id is free: the base id if that is, otherwise the lowest-numbered free candidate |
| PlanNormalizer.NormalizeLivePlanningPileOutput | apps/factory-cli/src/main.ts:2902-2934 | the loops compute the normalised plan, inserted verification task included |
| PlanNormalizer.AssignedIds | apps/factory-cli/src/main.ts:2902-2934 | assigned ids are pairwise distinct, each its own base id or a numbered form of it |
| PlanNormalizer.IdsMeaning | apps/factory-cli/src/main.ts:2906-2923 | each output task is called its raw id if that starts with "task-", else after its position, with the lowest free number from two on if an earlier task is called that; the inserted task has the reserved name on the same terms |
| PlanNormalizer.OutputMeaning | apps/factory-cli/src/main.ts:3015-3056 | a record's kind is its own if it is one of the five, else "implementation"; the verification task is inserted first if and only if some kind is "implementation"; exactly the implementation tasks then depend on it, and there are no other dependencies |
| PlanNormalizer.NormalizedPlanRunnable | apps/factory-cli/src/main.ts:3015-3056 | for any records: distinct ids that start with "task-", dependencies only on strictly earlier tasks, and a dry run without injected failures succeeds |
| PlanNormalizer.SyntheticExactly | apps/factory-cli/src/run-real-execution.ts:458-461 | the executor recognises the inserted task, and any other exactly when its raw id already has the reserved form |
| PlanNormalizer.ImplementationTakenForSynthetic | apps/factory-cli/src/run-real-execution.ts:144-157 | an implementation task with such an id is passed without running |
| Scanner.ExtractJsonObjectCandidates | packages/evaluation/src/evaluation-pile-result.ts:33-72 | the index loop with start, depth and flags finds the objects of the character automaton |
| Scanner.ExtractBalancedJsonObject | packages/hosted-llm-adapter/src/coder-adapter.ts:344-378 | on any text starting with a brace it returns exactly the other scanner's first candidate, or nothing when there is none; on other text nothing |
| Scanner.PrintPasses | packages/evaluation/src/evaluation-pile-result.ts:40-70 | scanning a printed value inside an object returns to the same depth, outside a string, having completed nothing |
| Scanner.CandidatesExact | packages/evaluation/src/evaluation-pile-result.ts:33-72 | from prose with stray closing braces and printed strings of any content, interleaved with printed objects and cut off anywhere at the end, the candidates are exactly the whole objects in order, and each parses back |
| Lineage.CanonicalIsPrint | packages/evaluation/src/lineage-hash.ts:18-32 | the canonical text is the ordinary print of the value with sorted keys |
| Lineage.CanonicalIff | packages/evaluation/src/lineage-hash.ts:18-32 | two values have the same canonical text if and only if they are equal up to key order |
| Lineage.CanonicalParses | packages/evaluation/src/lineage-hash.ts:18-32 | a canonical text parses to a value equal up to key order, in every object of which the keys ascend strictly |
| Lineage.LineageTextIff | packages/evaluation/src/lineage-hash.ts:5-16 | two intents share the text that is hashed if and only if problem and ordered criteria (id, statement, verification) agree |
| Lineage.LineageTextMeaning | packages/evaluation/src/lineage-hash.ts:5-16 | the hashed text parses to an object of "problem" and "acceptanceCriteria", each criterion an object of "id", "statement" and "verification", and nothing else |
| FieldPathOrder.CompareFieldPath | packages/intent/src/clarification.ts:1179-1202 | the index loop is the lexicographic comparison of the token lists |
| FieldPathOrder.CompareTokensLaws | packages/intent/src/clarification.ts:1179-1202 | that comparison is antisymmetric, transitive, and zero only on equal token lists |
| FieldPathOrder.SegmentTokensEqual | packages/intent/src/clarification.ts:1204-1219 | two segments get one token if and only if they are equal or one reads 1000 and the other is its padded form |
| FieldPathOrder.PathsCompareEqual | packages/intent/src/clarification.ts:1179-1219 | two paths compare equal if and only if they agree segment by segment up to such twins |
| Text.LessMeaning | packages/intent/src/clarification.ts:1289-1291 | one text is before another if and only if, where they first differ, it has ended or has the smaller character |
| FieldPathOrder.KnownRanks | packages/intent/src/clarification.ts:1226-1287 | the rank of each known segment |
| FieldPathOrder.PathsCompareBefore | packages/intent/src/clarification.ts:1179-1202 | one path is before another if and only if, at the first token where they differ, it has ended or its token has the lower rank, or the same rank and the lesser text |
| FieldPathOrder.NameToken | packages/intent/src/clarification.ts:1204-1219 | a named segment stands for itself, and an unknown one ranks 1000 |
| FieldPathOrder.IndexToken | packages/intent/src/clarification.ts:1204-1219 | a segment that reads as an index, white space around it aside, ranks as that number and is filled up with zeros to ten characters |
| FieldPathOrder.NegativeToken | packages/intent/src/clarification.ts:1204-1219 | and so does one that reads as a negative integer |
| Clarification.CompareLaws | packages/intent/src/clarification.ts:1163-1173 | the candidate comparator is antisymmetric and transitive, and zero exactly on equal category, path tokens, prompt and rationale |
| Clarification.ChooseBest | packages/intent/src/clarification.ts:1125-1142 | the choice of two candidates of a path is one of them and none is preferred to it, whichever came first |
| Clarification.SurvivorMeaning | packages/intent/src/clarification.ts:1125-1146 | for any candidates in any order: a path's question is a required-field one only if all its candidates are; among the rest it has the earliest category, then the least prompt, then the least rationale |
| Clarification.OrderMeaning | packages/intent/src/clarification.ts:1157-1175 | in the output the categories never go back in the order required-field, goal, acceptance-criteria, capability-envelope, policy, context; within one, paths, prompts and rationales never go back either |
| Clarification.DedupeQuestionCandidates | packages/intent/src/clarification.ts:1108-1123 | the map loop keeps one candidate per path, in first-seen order |
| Clarification.KeepsBest | packages/intent/src/clarification.ts:1108-1142 | every path mentioned is kept, once, with its best candidate |
| Clarification.DedupeOrderFree | packages/intent/src/clarification.ts:1108-1142 | what is kept depends only on which candidates there are |
| Clarification.OnePerPath | packages/intent/src/clarification.ts:1108-1161 | in any case the output has exactly one question per path, the best |
| Clarification.QuestionsCanonical | packages/intent/src/clarification.ts:1108-1173 | if no two candidates that are the best of their paths are alike up to twin paths, every order of the candidates gives the same strictly increasing list |
| Clarification.QuestionsOrderFreeIff | packages/intent/src/clarification.ts:1108-1219 | for given candidates the output is order free if and only if no two that are the best of their paths are alike up to twin paths |
| Clarification.AmbiguousOnlyByTwins | packages/intent/src/clarification.ts:1163-1219 | two candidates compare equal if and only if all else agrees and their paths are twins |
| Clarification.OrderFreeOverPathsIff | packages/intent/src/clarification.ts:1108-1219 | for a set of paths, the output is order free for all candidates about them if and only if no two of the paths are twins |
| Clarification.OrderShowsExample | packages/intent/src/clarification.ts:1204-1219 | for the helpers alone, a family of candidate pairs whose output depends on their order |
| GeneratedQuestions.GeneratedTwinsEqual | packages/intent/src/clarification.ts:974-1092 | no two different candidates the generator can build are twins |
| GeneratedQuestions.PlainQuestionsCanonical | packages/intent/src/clarification.ts:1108-1219 | for candidates whose path segments have no superfluous leading zeros the output is canonical |
| GeneratedQuestions.GeneratedQuestionsCanonical | packages/intent/src/clarification.ts:297-321 | for the generator's candidates every order gives the same strictly increasing list, exactly one question per path, the best |
| Evaluation.ValidateRubric | packages/evaluation/src/evaluation-pile-result.ts:74-109 | a rubric passes if and only if it has the five dimensions and nothing else, each a number in [0, 1]; every error names what is wrong and everything wrong is named; the numbers come out unchanged, unless a key is unknown or missing |
| Evaluation.VarianceBound | packages/evaluation/src/compute-semantic-confidence.ts:22-23 | values in [0, 1] have a population variance of at most 1/4, zero if and only if all equal the mean |
| Evaluation.ConfidenceBound | packages/evaluation/src/compute-semantic-confidence.ts:13-26 | with two or more validated critiques confidence is in [0.75, 1], the clamps never fire, and it is 1 if and only if all judges' means are equal |
| Evaluation.ConfidenceMeaning | packages/evaluation/src/compute-semantic-confidence.ts:13-26 | for any critiques: 0 below two, otherwise 1 less the mean squared deviation of the judges' means, and not below 0 |
| Evaluation.DeviationExpands | packages/evaluation/src/compute-semantic-confidence.ts:22-23 | the squared deviations in terms of the plain sum and the sum of squares |
| Evaluation.EvaluateConsensus | packages/evaluation/src/evaluate-consensus.ts:31-98 | no critiques and the first missing dimension are reported as such; otherwise means, verdict and thresholds hit |
| Evaluation.ConsensusMeaning | packages/evaluation/src/evaluate-consensus.ts:45-61 | the means of complete critiques, from the five scores of each judge and the scores of each dimension, and the score as their mean |
| Evaluation.ThresholdsMeaning | packages/evaluation/src/evaluate-consensus.ts:58-67 | under any thresholds each is listed if and only if its own statistic is below it, in a fixed order; the verdict is pass if and only if none is |
| Evaluation.SumExchange | packages/evaluation/src/evaluate-consensus.ts:47-56 | summing by judge and by dimension gives the same total |
| Evaluation.MeansAgree | packages/evaluation/src/evaluate-consensus.ts:58-60 | the mean of the judges' means is the mean of the dimensions' means |
| Evaluation.MinBelowMean | packages/evaluation/src/evaluate-consensus.ts:58-61 | a minimum is at most its mean |
| Evaluation.ConsensusPassIff | packages/evaluation/src/evaluate-consensus.ts:12-67 | under the default thresholds the verdict is pass if and only if every judge's and every dimension's mean is at least 0.85 |
| Evaluation.ConsensusOrderFree | packages/evaluation/src/evaluate-consensus.ts:31-98 | under any thresholds, verdict, score, dimension means and thresholds hit do not depend on the order of the judges |
| CiCapture.ComputeCiVerdict | packages/delivery-runtime/src/compute-ci-verdict.ts:15-42 | the loop with early return and the checks after it compute the verdict function |
| CiCapture.VerdictMeaning | packages/delivery-runtime/src/compute-ci-verdict.ts:9-42 | in terms of the listed runs: pass, fail and pending if and only if the first run of each required name is, respectively, completed and passing throughout; completed throughout and failing once; or missing, incomplete or inconclusive |
| CiCapture.VerdictByConclusions | packages/delivery-runtime/src/compute-ci-verdict.ts:9-42 | all four verdicts by the words the checks report, "completed" and the seven conclusions |
| CiCapture.VerdictStands | packages/delivery-runtime/src/compute-ci-verdict.ts:20-27 | a final verdict is not changed by runs listed later, re-runs of the same checks included |
| CiCapture.OnlyRequiredMatter | packages/delivery-runtime/src/compute-ci-verdict.ts:20-27 | runs of other checks never matter |
| CiCapture.PollCiStatus.Next | packages/delivery-runtime/src/poll-ci-status.ts:28-60 | one resumption of the generator yields the next step of its specification, and ends after a final verdict or an error |
| CiCapture.DrivePollCiStatus | apps/factory-cli/src/poll-ci-driver.ts:17-57 | the driver's durable steps, both files and its outcome are those of the capture function, for every poll |
| CiCapture.CaptureMeaning | apps/factory-cli/src/poll-ci-driver.ts:17-81 | for any answers: polling stops at the first that is not pending; one event an answer polled, with what it reported; then the closing event and its time, by verdict or by the reason of the abort; the result's verdict, times and window; and whether the capture returns, throws or waits |
| CiCapture.AbortedCapture | apps/factory-cli/src/poll-ci-driver.ts:83-113 | a capture aborted before it starts logs exactly that, by reason, and keeps everything else of the result |
| CiCapture.DeliveryFolder.Abort | apps/factory-cli/src/poll-ci-driver.ts:83-113 | an abort is logged and recorded as timeout-pending for a timeout and as cancelled otherwise |
| CiCapture.RollIncremental | apps/factory-cli/src/poll-ci-driver.ts:59-81 | rolling the rolled window with one more snapshot is rolling the full history |
| CiCapture.WindowIsOneShot | apps/factory-cli/src/poll-ci-driver.ts:59-81 | after any number of polls the stored window is the one-shot rule on the full history |
| CiCapture.LogLeadsByAtMostOne | apps/factory-cli/src/poll-ci-driver.ts:34-57 | over any earlier events and file, at every durable step the result file is what the events since then rebuild, or those without the last |
| CiCapture.LogRebuildsFile | apps/factory-cli/src/execute-delivery-wiring.ts:105-119 | started by its caller over the delivery's own events and the initial result, at every step the file is what the whole log rebuilds, or the log without its last event |
| CiCapture.VerdictIsFinal | apps/factory-cli/src/poll-ci-driver.ts:17-57 | over any earlier events, driven by the poll generator a returned verdict is never pending, is in the file, and is named by the one closing event logged; otherwise nothing is closed |
| Ontology.LastWins | packages/evaluation/src/index.ts:123-124 | of several fields with one name the last counts |
| Ontology.ByNameHas | packages/evaluation/src/index.ts:123-124 | the names are exactly those of the fields |
| Ontology.MeasureMeaning | packages/evaluation/src/index.ts:118-169 | name overlap, type match and exact match are the nearest thousandths of the shares of common names, and the score that of 0.5, 0.3 and 0.2 of them, as inequalities over the fields' own names, types and descriptions |
| Ontology.DecisionMeaning | packages/evaluation/src/index.ts:171-212 | for every threshold and cap: exhausted if and only if the generation has reached the cap; else converged if and only if there is a previous ontology and that score reaches the threshold |
| Ontology.Symmetric | packages/evaluation/src/index.ts:118-169 | similarity does not depend on which ontology is previous |
| Ontology.Bounds | packages/evaluation/src/index.ts:138-168 | all results are in [0, 1] and the exact match is at most the type match |
| Ontology.PerfectIffAgree | packages/evaluation/src/index.ts:118-169 | below 400 names the score is 1 if and only if names, types and descriptions agree |
| Ontology.RoundingHidesOneChange | packages/evaluation/src/index.ts:138-160 | with 400 names or more, one changed description still scores 1 |
| Ontology.PerfectMeansAgreementIff | packages/evaluation/src/index.ts:118-169 | for ontologies with n names between them, a score of 1 means agreement if and only if n is below 400 |
| Ontology.ConvergedShares | packages/evaluation/src/index.ts:171-216 | converging at the default threshold means at least 0.8985 of all names are shared, through all roundings; with exactly matching shared fields that is also enough |

## Left out

- Files: an append and an atomic replacement are single steps; fsync, rename failures, directory creation and evidence files are not modelled.
- Writers: two processes writing one run directory at once are not modelled; the code assumes one.
- Exceptions inside a task (adapter, evidence writing, sentinel check, the field check of an append) behave like a crash at that step.
- The `repair` option of the executor (its own attempt number, the repeated execution of targeted tasks, the stop after the first patch): whole-run theorems are for runs without it; the merges of repair results are covered.
- Snapshot fields `runId` and `generatedAt`, the journal event's constant `schemaVersion` outside its text form, and the key order of the snapshot file.
- Task ids that are keys of every JavaScript object, such as `__proto__`, in the snapshot's record.
- JSON numbers are kept as their literals, without conversion to doubles; `\u` escapes of surrogates are rejected by the modelled parser, and text is a sequence of Unicode scalar values, so a tear inside a UTF-8 sequence is not modelled.
- JavaScript's reordering of integer-like object keys, in printing and in parsing.
- Json.TornThenAppendedIsNotJson: stated for an appended object whose first key starts with a character that is neither punctuation nor white space, as every journal event does.
- CrashSafety.JournalsReachable: the status machine is for plans with distinct ids; numbering and snapshots hold for all plans (Bookkeeping.NumberingReachable, Bookkeeping.SnapshotsReachable), and what repeated ids do to executions is OncePerTask.AtMostOnceIff.
- Scanner.CandidatesExact: for prose whose only quotes are those of printed strings and of a last one that never closes; any other quote swallows what follows up to the next one, in the code as in the model.
- FieldPathOrder.SegmentTokensEqual: numeric segments beyond 2^53, in exponent or hexadecimal form, are not read as numbers.
- GeneratedQuestions.GeneratedQuestionsCanonical: covers every candidate of the generator's shape (names that start with a lower-case letter, indices, or a caller's required field with the prompt that quotes it); which of them a draft gives rise to is text heuristics and not modelled.
- Clarification: question ids (a 32-bit hash, not collision free) are not modelled; the host's sort is modelled as a stable insertion sort.
- Lineage.LineageTextIff: about the text that is hashed; sha256 itself is not modelled.
- Evaluation and Ontology: exact reals and exact thousandths; rounding of IEEE doubles is not modelled.
- RepairMerge.ExecuteRepairs: the `diffArtifact` of the two results is not modelled; they differ in it by design.
- Plan tasks carry id, dependencies and kind only; targets, acceptance criteria and capabilities are passed through by the code and do not enter any property here.
- CiCapture: the interval between polls and failures of the two file writes are not modelled; the abort signal enters with each answer.
- Planning admission, capability policy, review loop, repository patching, delivery (HTTP, push), CLI parsing and text heuristics: separate subsystems, or one-branch claims.
